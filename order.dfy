/**
  The summary depends on the dict of namelists, not on the order in which
  the dict happens to list its files: `nmldiff` treats every file alike,
  and `strnmldict` sorts the keys and looks each one up.
*/
module Order {
  import opened Namelists
  import opened LexOrder
  import opened Text
  import opened Diff
  import opened Render
  import opened Layout

  /** The dict that keys `names` and namelists `lists` stand for. */
  ghost function AsDict<V>(names: seq<Name>, lists: seq<Namelist<V>>): (d: map<Name, Namelist<V>>)
    requires |names| == |lists|
    ensures d.Keys == KeySet(names)
  {
    map fn | fn in names :: lists[IndexOf(names, fn)]
  }

  /** The namelists of a collection, as a set. */
  ghost function Files<V>(lists: seq<Namelist<V>>): set<Namelist<V>>
  {
    set i | 0 <= i < |lists| :: lists[i]
  }

  /** Every namelist of either sequence is also one of the other. */
  ghost predicate SameFiles<V>(lists1: seq<Namelist<V>>, lists2: seq<Namelist<V>>)
  {
    Files(lists1) == Files(lists2)
  }

  /** Two namelists with the same groups, each with the same members. */
  ghost predicate SameShape<V>(ss1: Namelist<V>, ss2: Namelist<V>)
  {
    ss1.Keys == ss2.Keys && forall g :: g in ss1 ==> ss1[g].Keys == ss2[g].Keys
  }

  /** Both collections hold the same namelist under each key of `fns`. */
  ghost predicate SameLookups<V>(names1: seq<Name>, lists1: seq<Namelist<V>>,
                                 names2: seq<Name>, lists2: seq<Namelist<V>>, fns: seq<Name>)
    requires |names1| == |lists1| && |names2| == |lists2|
  {
    forall k :: 0 <= k < |fns| ==>
      fns[k] in names1 && fns[k] in names2 &&
      lists1[IndexOf(names1, fns[k])] == lists2[IndexOf(names2, fns[k])]
  }

  // ---------------------------------------------------------------------
  // The same dict listed in two orders

  /** The same dict in two orders: the same keys, the same namelist under each
      key, and so the same namelists. */
  lemma SameDict<V>(names1: seq<Name>, lists1: seq<Namelist<V>>, names2: seq<Name>, lists2: seq<Namelist<V>>)
    requires WellFormed(names1, lists1) && WellFormed(names2, lists2)
    requires AsDict(names1, lists1) == AsDict(names2, lists2)
    ensures KeySet(names1) == KeySet(names2)
    ensures forall fn :: fn in names1 ==> fn in names2 && lists1[IndexOf(names1, fn)] == lists2[IndexOf(names2, fn)]
    ensures SameFiles(lists1, lists2)
  {
    var d := AsDict(names1, lists1);
    forall fn | fn in names1
      ensures fn in names2 && lists1[IndexOf(names1, fn)] == lists2[IndexOf(names2, fn)]
    {
      assert fn in KeySet(names2);
      assert d[fn] == AsDict(names2, lists2)[fn];
    }
    forall nl | nl in Files(lists1)
      ensures nl in Files(lists2)
    {
      var i :| 0 <= i < |lists1| && lists1[i] == nl;
      IndexOfKey(names1, i);
      assert names1[i] in names1;
      var j := IndexOf(names2, names1[i]);
      assert lists2[j] == nl;
    }
    forall nl | nl in Files(lists2)
      ensures nl in Files(lists1)
    {
      var j :| 0 <= j < |lists2| && lists2[j] == nl;
      IndexOfKey(names2, j);
      assert names2[j] in KeySet(names1);
      var i := IndexOf(names1, names2[j]);
      assert lists1[i] == nl;
    }
  }

  /** The same namelists give supersets with the same groups and members. */
  lemma SupersetShape<V>(lists1: seq<Namelist<V>>, lists2: seq<Namelist<V>>)
    requires SameFiles(lists1, lists2)
    ensures SameShape(SupersetOf(lists1), SupersetOf(lists2))
  {
    SupersetKeys(lists1);
    SupersetKeys(lists2);
    assert AllGroups(lists1) == AllGroups(lists2) by {
      forall g | g in AllGroups(lists1) ensures g in AllGroups(lists2) {
        var i :| 0 <= i < |lists1| && g in lists1[i];
        assert lists1[i] in Files(lists2);
        var j :| 0 <= j < |lists2| && lists2[j] == lists1[i];
      }
      forall g | g in AllGroups(lists2) ensures g in AllGroups(lists1) {
        var j :| 0 <= j < |lists2| && g in lists2[j];
        assert lists2[j] in Files(lists1);
        var i :| 0 <= i < |lists1| && lists1[i] == lists2[j];
      }
    }
    forall g | g in AllGroups(lists1)
      ensures AllMembers(lists1, g) == AllMembers(lists2, g)
    {
      forall m | m in AllMembers(lists1, g) ensures m in AllMembers(lists2, g) {
        var i :| 0 <= i < |lists1| && g in lists1[i] && m in lists1[i][g];
        assert lists1[i] in Files(lists2);
        var j :| 0 <= j < |lists2| && lists2[j] == lists1[i];
      }
      forall m | m in AllMembers(lists2, g) ensures m in AllMembers(lists1, g) {
        var j :| 0 <= j < |lists2| && g in lists2[j] && m in lists2[j][g];
        assert lists2[j] in Files(lists1);
        var i :| 0 <= i < |lists1| && lists1[i] == lists2[j];
      }
    }
  }

  // ---------------------------------------------------------------------
  // The text depends on the keys, the namelist under each key and the
  // superset's groups and members only

  lemma {:induction false} FileLinesSame<V>(names1: seq<Name>, lists1: seq<Namelist<V>>,
                                            names2: seq<Name>, lists2: seq<Namelist<V>>,
                                            fns: seq<Name>, g: Name, m: Name, w: nat, repr: V -> string)
    requires |names1| == |lists1| && |names2| == |lists2|
    requires SameLookups(names1, lists1, names2, lists2, fns)
    ensures FileLines(names1, lists1, fns, g, m, w, repr) == FileLines(names2, lists2, fns, g, m, w, repr)
    decreases |fns|
  {
    if |fns| > 0 {
      FileLinesSame(names1, lists1, names2, lists2, fns[..|fns| - 1], g, m, w, repr);
    }
  }

  lemma {:induction false} GroupBlocksSame<V>(names1: seq<Name>, lists1: seq<Namelist<V>>,
                                              names2: seq<Name>, lists2: seq<Namelist<V>>,
                                              fns: seq<Name>, g: Name, mems: seq<Name>, w: nat, repr: V -> string)
    requires |names1| == |lists1| && |names2| == |lists2|
    requires SameLookups(names1, lists1, names2, lists2, fns)
    ensures GroupBlocks(names1, lists1, fns, g, mems, w, repr) == GroupBlocks(names2, lists2, fns, g, mems, w, repr)
    decreases |mems|
  {
    if |mems| > 0 {
      GroupBlocksSame(names1, lists1, names2, lists2, fns, g, mems[..|mems| - 1], w, repr);
      FileLinesSame(names1, lists1, names2, lists2, fns, g, mems[|mems| - 1], w, repr);
    }
  }

  lemma {:induction false} PlainBlocksSame<V>(names1: seq<Name>, lists1: seq<Namelist<V>>,
                                              names2: seq<Name>, lists2: seq<Namelist<V>>, fns: seq<Name>,
                                              ss1: Namelist<V>, ss2: Namelist<V>, groups: seq<Name>, w: nat, repr: V -> string)
    requires |names1| == |lists1| && |names2| == |lists2|
    requires SameLookups(names1, lists1, names2, lists2, fns)
    requires SameShape(ss1, ss2)
    ensures PlainBlocks(names1, lists1, fns, ss1, groups, w, repr) == PlainBlocks(names2, lists2, fns, ss2, groups, w, repr)
    decreases |groups|
  {
    if |groups| > 0 {
      var g := groups[|groups| - 1];
      PlainBlocksSame(names1, lists1, names2, lists2, fns, ss1, ss2, groups[..|groups| - 1], w, repr);
      if g in ss1 {
        GroupBlocksSame(names1, lists1, names2, lists2, fns, g, SortedSeq(ss1[g].Keys), w, repr);
      }
    }
  }

  lemma {:induction false} HeaderAllSame<V>(ss1: Namelist<V>, ss2: Namelist<V>, groups: seq<Name>)
    requires SameShape(ss1, ss2)
    ensures HeaderAll(ss1, groups) == HeaderAll(ss2, groups)
    ensures MemberCount(ss1, groups) == MemberCount(ss2, groups)
    decreases |groups|
  {
    if |groups| > 0 {
      HeaderAllSame(ss1, ss2, groups[..|groups| - 1]);
    }
  }

  lemma {:induction false} RowAllSame<V>(nl: Namelist<V>, ss1: Namelist<V>, ss2: Namelist<V>, groups: seq<Name>, repr: V -> string)
    requires SameShape(ss1, ss2)
    ensures RowAll(nl, ss1, groups, repr) == RowAll(nl, ss2, groups, repr)
    decreases |groups|
  {
    if |groups| > 0 {
      RowAllSame(nl, ss1, ss2, groups[..|groups| - 1], repr);
    }
  }

  lemma {:induction false} MdRowsSame<V>(names1: seq<Name>, lists1: seq<Namelist<V>>,
                                         names2: seq<Name>, lists2: seq<Namelist<V>>, fns: seq<Name>,
                                         ss1: Namelist<V>, ss2: Namelist<V>, repr: V -> string)
    requires |names1| == |lists1| && |names2| == |lists2|
    requires SameLookups(names1, lists1, names2, lists2, fns)
    requires SameShape(ss1, ss2)
    ensures MdRows(names1, lists1, fns, ss1, repr) == MdRows(names2, lists2, fns, ss2, repr)
    decreases |fns|
  {
    if |fns| > 0 {
      var fn := fns[|fns| - 1];
      MdRowsSame(names1, lists1, names2, lists2, fns[..|fns| - 1], ss1, ss2, repr);
      assert ss1.Keys == ss2.Keys;
      RowAllSame(lists1[IndexOf(names1, fn)], ss1, ss2, SortedSeq(ss1.Keys), repr);
    }
  }

  lemma TableSame<V>(names1: seq<Name>, lists1: seq<Namelist<V>>,
                     names2: seq<Name>, lists2: seq<Namelist<V>>, fns: seq<Name>,
                     ss1: Namelist<V>, ss2: Namelist<V>, w: nat, repr: V -> string)
    requires |names1| == |lists1| && |names2| == |lists2|
    requires SameLookups(names1, lists1, names2, lists2, fns)
    requires SameShape(ss1, ss2)
    ensures Table(names1, lists1, fns, ss1, w, repr) == Table(names2, lists2, fns, ss2, w, repr)
  {
    assert ss1.Keys == ss2.Keys;
    HeaderAllSame(ss1, ss2, SortedSeq(ss1.Keys));
    MdRowsSame(names1, lists1, names2, lists2, fns, ss1, ss2, repr);
  }

  /** Both forms of `strnmldict` depend on the dict only, not on the order in
      which it lists its files. */
  lemma RenderIgnoresOrder<V>(names1: seq<Name>, lists1: seq<Namelist<V>>,
                              names2: seq<Name>, lists2: seq<Namelist<V>>, repr: V -> string)
    requires WellFormed(names1, lists1) && WellFormed(names2, lists2)
    requires AsDict(names1, lists1) == AsDict(names2, lists2)
    ensures PlainText(names1, lists1, repr) == PlainText(names2, lists2, repr)
    ensures MdText(names1, lists1, repr) == MdText(names2, lists2, repr)
  {
    SameDict(names1, lists1, names2, lists2);
    var fns := SortedSeq(KeySet(names1));
    SortedKeys(names1);
    assert SameLookups(names1, lists1, names2, lists2, fns);
    var ss1, ss2 := SupersetOf(lists1), SupersetOf(lists2);
    SupersetShape(lists1, lists2);
    assert ss1.Keys == ss2.Keys;
    PlainBlocksSame(names1, lists1, names2, lists2, fns, ss1, ss2, SortedSeq(ss1.Keys), MaxLen(fns), repr);
    TableSame(names1, lists1, names2, lists2, fns, ss1, ss2, MaxLen(fns), repr);
  }

  // ---------------------------------------------------------------------
  // The diff treats every file alike

  /** The same namelists, in whatever order, agree on which groups are common,
      which members are agreed and which groups are dropped. */
  lemma SameVerdicts<V>(lists1: seq<Namelist<V>>, lists2: seq<Namelist<V>>, g: Name)
    requires SameFiles(lists1, lists2)
    ensures Common(lists1, g) <==> Common(lists2, g)
    ensures forall m :: Agreed(lists1, g, m) <==> Agreed(lists2, g, m)
    ensures Dropped(lists1, g) <==> Dropped(lists2, g)
  {
    SameVerdictsOneWay(lists1, lists2, g);
    SameVerdictsOneWay(lists2, lists1, g);
  }

  lemma SameVerdictsOneWay<V>(lists1: seq<Namelist<V>>, lists2: seq<Namelist<V>>, g: Name)
    requires Files(lists2) <= Files(lists1)
    ensures Common(lists1, g) ==> Common(lists2, g)
    ensures forall m :: Agreed(lists1, g, m) ==> Agreed(lists2, g, m)
    ensures Dropped(lists1, g) ==> Dropped(lists2, g)
  {
    forall j | 0 <= j < |lists2|
      ensures exists i :: 0 <= i < |lists1| && lists1[i] == lists2[j]
    {
      assert lists2[j] in Files(lists1);
    }
    forall m | Agreed(lists1, g, m)
      ensures Agreed(lists2, g, m)
    {
      forall j, k | 0 <= j < |lists2| && 0 <= k < |lists2|
        ensures lists2[j][g][m] == lists2[k][g][m]
      {
        var i :| 0 <= i < |lists1| && lists1[i] == lists2[j];
        var l :| 0 <= l < |lists1| && lists1[l] == lists2[k];
        assert lists1[i][g][m] == lists1[l][g][m];
      }
    }
  }

  /** The diff of a file depends on that file's namelist and on the set of
      namelists, not on their order. */
  lemma DiffFileSame<V>(lists1: seq<Namelist<V>>, lists2: seq<Namelist<V>>, i: nat, j: nat)
    requires SameFiles(lists1, lists2)
    requires i < |lists1| && j < |lists2| && lists1[i] == lists2[j]
    ensures DiffFile(lists1, i) == DiffFile(lists2, j)
  {
    var nl := lists1[i];
    forall g | g in nl
      ensures (Dropped(lists1, g) <==> Dropped(lists2, g)) && (Common(lists1, g) <==> Common(lists2, g))
      ensures Common(lists1, g) ==> Reduced(lists1, g, i) == Reduced(lists2, g, j)
    {
      SameVerdicts(lists1, lists2, g);
    }
  }

  /** `nmldiff` leaves each key with the same namelist whatever the order in
      which the dict lists its files. */
  lemma DiffIgnoresOrder<V>(names1: seq<Name>, lists1: seq<Namelist<V>>,
                            names2: seq<Name>, lists2: seq<Namelist<V>>)
    requires WellFormed(names1, lists1) && WellFormed(names2, lists2)
    requires AsDict(names1, lists1) == AsDict(names2, lists2)
    ensures AsDict(names1, DiffOf(lists1)) == AsDict(names2, DiffOf(lists2))
  {
    SameDict(names1, lists1, names2, lists2);
    forall fn | fn in names1
      ensures DiffOf(lists1)[IndexOf(names1, fn)] == DiffOf(lists2)[IndexOf(names2, fn)]
    {
      DiffFileSame(lists1, lists2, IndexOf(names1, fn), IndexOf(names2, fn));
    }
  }

  /** The summary the command prints, `strnmldict(nmldiff(nmlall))`, is the
      same whichever order the dict lists its files in. */
  lemma SummaryIgnoresOrder<V>(names1: seq<Name>, lists1: seq<Namelist<V>>,
                               names2: seq<Name>, lists2: seq<Namelist<V>>, repr: V -> string)
    requires WellFormed(names1, lists1) && WellFormed(names2, lists2)
    requires AsDict(names1, lists1) == AsDict(names2, lists2)
    ensures PlainText(names1, DiffOf(lists1), repr) == PlainText(names2, DiffOf(lists2), repr)
    ensures MdText(names1, DiffOf(lists1), repr) == MdText(names2, DiffOf(lists2), repr)
  {
    DiffIgnoresOrder(names1, lists1, names2, lists2);
    RenderIgnoresOrder(names1, DiffOf(lists1), names2, DiffOf(lists2), repr);
  }
}
