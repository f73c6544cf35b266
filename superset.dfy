/**
  Parsed namelists and `superset`: the merge of every file's namelist into
  one mapping that holds every group and every member seen in any file,
  the value of a member being the one from the last file (in the
  collection's iteration order) that defines it.

  A value is any type with equality (`V`); what the parser produces is not
  modelled. A collection (`nmlall`, a dict from file key to namelist) is
  given by its keys `names` and its namelists `lists`, both in the dict's
  iteration order.
*/
module Namelists {

  type Name = string
  /** member name -> value */
  type Group<V> = map<Name, V>
  /** group name -> group: one parsed file */
  type Namelist<V> = map<Name, Group<V>>

  predicate Distinct(s: seq<Name>)
  {
    forall i, j :: 0 <= i < j < |s| ==> s[i] != s[j]
  }

  /** `names` and `lists` are the keys and values of a dict: one key per namelist, no key twice. */
  predicate WellFormed<V>(names: seq<Name>, lists: seq<Namelist<V>>)
  {
    |names| == |lists| && Distinct(names)
  }

  /** Every group name that appears in some file. */
  ghost function AllGroups<V>(lists: seq<Namelist<V>>): set<Name>
  {
    set i, g | 0 <= i < |lists| && g in lists[i] :: g
  }

  /** Every member name that appears in group `g` of some file. */
  ghost function AllMembers<V>(lists: seq<Namelist<V>>, g: Name): set<Name>
  {
    set i, m | 0 <= i < |lists| && g in lists[i] && m in lists[i][g] :: m
  }

  /** The first pass of `superset`: `update` with each whole namelist in turn,
      so that each group is the group object of the last file holding it. */
  ghost function Overlay<V>(lists: seq<Namelist<V>>): Namelist<V>
  {
    if |lists| == 0 then map[] else Overlay(lists[..|lists| - 1]) + lists[|lists| - 1]
  }

  /** Group `g` of every file merged in iteration order, later values winning. */
  ghost function GroupUnion<V>(lists: seq<Namelist<V>>, g: Name): Group<V>
  {
    if |lists| == 0 then map[]
    else
      var acc := GroupUnion(lists[..|lists| - 1], g);
      var last := lists[|lists| - 1];
      if g in last then acc + last[g] else acc
  }

  /** The superset of a collection: every group of any file, each merged over the files. */
  ghost function SupersetOf<V>(lists: seq<Namelist<V>>): Namelist<V>
  {
    map g | g in AllGroups(lists) :: GroupUnion(lists, g)
  }

  // ---------------------------------------------------------------------
  // Properties of the specification

  /** After the first pass the groups are exactly those of all files. */
  lemma {:induction false} OverlayKeys<V>(lists: seq<Namelist<V>>)
    ensures Overlay(lists).Keys == AllGroups(lists)
    decreases |lists|
  {
    if |lists| > 0 {
      var front := lists[..|lists| - 1];
      OverlayKeys(front);
      forall g
        ensures g in AllGroups(lists) <==> g in AllGroups(front) || g in lists[|lists| - 1]
      {
        if g in AllGroups(lists) {
          var i :| 0 <= i < |lists| && g in lists[i];
          if i < |front| {
            assert front[i] == lists[i];
          }
        }
        if g in AllGroups(front) {
          var i :| 0 <= i < |front| && g in front[i];
          assert lists[i] == front[i];
        }
      }
    }
  }

  /** A member is in the merged group iff some file has it in group `g`. */
  lemma {:induction false} GroupUnionMembers<V>(lists: seq<Namelist<V>>, g: Name)
    ensures GroupUnion(lists, g).Keys == AllMembers(lists, g)
    decreases |lists|
  {
    if |lists| > 0 {
      var front := lists[..|lists| - 1];
      var last := lists[|lists| - 1];
      GroupUnionMembers(front, g);
      forall m
        ensures m in AllMembers(lists, g) <==> m in AllMembers(front, g) || (g in last && m in last[g])
      {
        if m in AllMembers(lists, g) {
          var i :| 0 <= i < |lists| && g in lists[i] && m in lists[i][g];
          if i < |front| {
            assert front[i] == lists[i];
          }
        }
        if m in AllMembers(front, g) {
          var i :| 0 <= i < |front| && g in front[i] && m in front[i][g];
          assert lists[i] == front[i];
        }
      }
    }
  }

  /** The merged value of a member is the one in the last file that defines it. */
  lemma {:induction false} GroupUnionLastWins<V>(lists: seq<Namelist<V>>, g: Name, m: Name, k: nat)
    requires k < |lists| && g in lists[k] && m in lists[k][g]
    requires forall j :: k < j < |lists| ==> !(g in lists[j] && m in lists[j][g])
    ensures m in GroupUnion(lists, g)
    ensures GroupUnion(lists, g)[m] == lists[k][g][m]
    decreases |lists|
  {
    var front := lists[..|lists| - 1];
    if k < |lists| - 1 {
      forall j | k < j < |front|
        ensures !(g in front[j] && m in front[j][g])
      {
        assert front[j] == lists[j];
      }
      assert front[k] == lists[k];
      GroupUnionLastWins(front, g, m, k);
    }
  }

  /** Group set of the superset = union of the files' group sets; member set of
      each group = union of that group's member sets over the files that have it. */
  lemma SupersetKeys<V>(lists: seq<Namelist<V>>)
    ensures SupersetOf(lists).Keys == AllGroups(lists)
    ensures forall g :: g in AllGroups(lists) ==> SupersetOf(lists)[g].Keys == AllMembers(lists, g)
  {
    forall g | g in AllGroups(lists)
      ensures SupersetOf(lists)[g].Keys == AllMembers(lists, g)
    {
      GroupUnionMembers(lists, g);
    }
  }

  /** Every input namelist is contained, key for key, in the superset. */
  lemma SupersetCovers<V>(lists: seq<Namelist<V>>)
    ensures forall i, g :: 0 <= i < |lists| && g in lists[i] ==>
      g in SupersetOf(lists) && lists[i][g].Keys <= SupersetOf(lists)[g].Keys
  {
    SupersetKeys(lists);
  }

  /** Each superset value comes from the last file in iteration order defining that member. */
  lemma SupersetLastWins<V>(lists: seq<Namelist<V>>, g: Name, m: Name, k: nat)
    requires k < |lists| && g in lists[k] && m in lists[k][g]
    requires forall j :: k < j < |lists| ==> !(g in lists[j] && m in lists[j][g])
    ensures g in SupersetOf(lists) && m in SupersetOf(lists)[g]
    ensures SupersetOf(lists)[g][m] == lists[k][g][m]
  {
    assert g in AllGroups(lists);
    GroupUnionLastWins(lists, g, m, k);
  }

  /** Merging in the group of the last file that holds `g` again at the front changes nothing. */
  lemma {:induction false} OverlayAbsorbed<V>(lists: seq<Namelist<V>>, g: Name)
    requires g in Overlay(lists)
    ensures Overlay(lists)[g] + GroupUnion(lists, g) == GroupUnion(lists, g)
    decreases |lists|
  {
    var front := lists[..|lists| - 1];
    var last := lists[|lists| - 1];
    if g in last {
      var a, x := GroupUnion(front, g), last[g];
      assert x + (a + x) == a + x;
    } else {
      OverlayAbsorbed(front, g);
    }
  }

  // ---------------------------------------------------------------------
  // The operation

  /** `superset(nmlall)` for the namelists `lists` of the collection: a first pass
      that `update`s with every namelist, then, group by group, a private copy
      updated with that group of every file. */
  method Superset<V>(lists: seq<Namelist<V>>) returns (ss: Namelist<V>)
    ensures ss == SupersetOf(lists)
  {
    ss := UpdateWithNamelists(lists);
    OverlayKeys(lists);
    forall g | g in ss
      ensures ss[g] + GroupUnion(lists, g) == GroupUnion(lists, g)
    {
      OverlayAbsorbed(lists, g);
    }
    ss := CopyAndUpdateGroups(lists, ss);
  }

  /** First loop of `superset`: `update` with each file's whole namelist. */
  method UpdateWithNamelists<V>(lists: seq<Namelist<V>>) returns (ss: Namelist<V>)
    ensures ss == Overlay(lists)
  {
    ss := map[];
    for i := 0 to |lists|
      invariant ss == Overlay(lists[..i])
    {
      assert lists[..i + 1][..i] == lists[..i];
      ss := ss + lists[i];
    }
    assert lists[..|lists|] == lists;
  }

  /** Second loop of `superset`: every group replaced by a copy of itself that is
      then updated with that group of every file holding it. */
  method CopyAndUpdateGroups<V>(lists: seq<Namelist<V>>, first: Namelist<V>) returns (ss: Namelist<V>)
    requires forall g :: g in first ==> first[g] + GroupUnion(lists, g) == GroupUnion(lists, g)
    ensures ss.Keys == first.Keys
    ensures forall g :: g in ss ==> ss[g] == GroupUnion(lists, g)
  {
    ss := first;
    var todo := ss.Keys;
    while todo != {}
      invariant todo <= first.Keys && ss.Keys == first.Keys
      invariant forall g :: g in ss ==> ss[g] == if g in todo then first[g] else GroupUnion(lists, g)
      decreases todo
    {
      var g :| g in todo;
      var grp := UpdateGroup(lists, g, ss[g]);  // ss[g] is copied: input groups stay as they are
      ss := ss[g := grp];
      todo := todo - {g};
    }
  }

  /** The innermost loop of `superset`: a group updated with group `g` of every
      file that has it, in iteration order. */
  method UpdateGroup<V>(lists: seq<Namelist<V>>, g: Name, start: Group<V>) returns (grp: Group<V>)
    ensures grp == start + GroupUnion(lists, g)
  {
    grp := start;
    for i := 0 to |lists|
      invariant grp == start + GroupUnion(lists[..i], g)
    {
      assert lists[..i + 1][..i] == lists[..i];
      if g in lists[i] {
        ghost var a, x := GroupUnion(lists[..i], g), lists[i][g];
        assert (start + a) + x == start + (a + x);
        grp := grp + lists[i][g];
      }
    }
    assert lists[..|lists|] == lists;
  }
}
