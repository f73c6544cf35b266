/**
  `nmldiff`: removes, in place, every member that is present with one and
  the same value in every file (within groups every file has), then every
  such group that is thereby left empty in every file.
*/
module Diff {
  import opened Namelists

  // ---------------------------------------------------------------------
  // Specification

  /** Group `g` is present in every file. */
  ghost predicate Common<V>(lists: seq<Namelist<V>>, g: Name)
  {
    forall i :: 0 <= i < |lists| ==> g in lists[i]
  }

  /** Member `m` of group `g` is present in every file, with one value in all of them. */
  ghost predicate Agreed<V>(lists: seq<Namelist<V>>, g: Name, m: Name)
  {
    && Common(lists, g)
    && (forall i :: 0 <= i < |lists| ==> m in lists[i][g])
    && (forall i, j :: 0 <= i < |lists| && 0 <= j < |lists| ==> lists[i][g][m] == lists[j][g][m])
  }

  /** Group `g` of file `i` once the agreed members are gone. */
  ghost function Reduced<V>(lists: seq<Namelist<V>>, g: Name, i: nat): Group<V>
    requires i < |lists| && g in lists[i]
  {
    map m | m in lists[i][g] && !Agreed(lists, g, m) :: lists[i][g][m]
  }

  /** Group `g` is common and every member it has in any file is agreed, so that
      the member pass leaves it empty in every file. */
  ghost predicate Dropped<V>(lists: seq<Namelist<V>>, g: Name)
  {
    && Common(lists, g)
    && forall i :: 0 <= i < |lists| ==> forall m :: m in lists[i][g] ==> Agreed(lists, g, m)
  }

  /** What `nmldiff` leaves of file `i`. */
  ghost function DiffFile<V>(lists: seq<Namelist<V>>, i: nat): Namelist<V>
    requires i < |lists|
  {
    map g | g in lists[i] && !Dropped(lists, g) ::
      if Common(lists, g) then Reduced(lists, g, i) else lists[i][g]
  }

  /** The namelists `nmldiff` leaves behind, file by file. */
  ghost function DiffOf<V>(lists: seq<Namelist<V>>): seq<Namelist<V>>
  {
    seq(|lists|, i requires 0 <= i < |lists| => DiffFile(lists, i))
  }

  // ---------------------------------------------------------------------
  // Properties of the specification

  /** A member survives exactly when it is not agreed; a surviving member keeps its value;
      nothing is added. */
  lemma DiffMembers<V>(lists: seq<Namelist<V>>, i: nat, g: Name, m: Name)
    requires i < |lists| && g in DiffOf(lists)[i]
    ensures g in lists[i]
    ensures m in DiffOf(lists)[i][g] <==> m in lists[i][g] && !Agreed(lists, g, m)
    ensures m in DiffOf(lists)[i][g] ==> DiffOf(lists)[i][g][m] == lists[i][g][m]
  {
  }

  /** A group survives in a file exactly when the file has it and it is not dropped. */
  lemma DiffGroups<V>(lists: seq<Namelist<V>>, i: nat, g: Name)
    requires i < |lists|
    ensures g in DiffOf(lists)[i] <==> g in lists[i] && !Dropped(lists, g)
  {
  }

  /** A group missing from some file is left exactly as it was, in every file. */
  lemma DiffNonCommonUntouched<V>(lists: seq<Namelist<V>>, g: Name)
    requires !Common(lists, g)
    ensures forall i :: 0 <= i < |lists| ==>
      (g in DiffOf(lists)[i] <==> g in lists[i]) &&
      (g in lists[i] ==> DiffOf(lists)[i][g] == lists[i][g])
  {
  }

  /** A group is dropped exactly when it is common and the member pass empties it
      in every file. */
  lemma DroppedIffEmptied<V>(lists: seq<Namelist<V>>, g: Name)
    requires Common(lists, g)
    ensures Dropped(lists, g) <==> forall i :: 0 <= i < |lists| ==> |Reduced(lists, g, i)| == 0
  {
    if !Dropped(lists, g) {
      var i, m :| 0 <= i < |lists| && m in lists[i][g] && !Agreed(lists, g, m);
      assert m in Reduced(lists, g, i);
    } else {
      forall i | 0 <= i < |lists|
        ensures |Reduced(lists, g, i)| == 0
      {
        assert Reduced(lists, g, i).Keys == {};
      }
    }
  }

  /** A member agreed on after the diff was already agreed on before it. */
  lemma AgreedAfterDiff<V>(lists: seq<Namelist<V>>, g: Name, m: Name)
    requires Agreed(DiffOf(lists), g, m)
    ensures Agreed(lists, g, m)
  {
    var d := DiffOf(lists);
    forall j | 0 <= j < |lists|
      ensures g in lists[j] && m in lists[j][g] && d[j][g][m] == lists[j][g][m]
    {
      DiffMembers(lists, j, g, m);
    }
  }

  /** In the diff, a surviving group is never dropped again and holds no agreed member. */
  lemma NothingLeftToRemove<V>(lists: seq<Namelist<V>>, g: Name, i: nat)
    requires i < |lists| && g in DiffOf(lists)[i]
    ensures !Dropped(DiffOf(lists), g)
    ensures forall m :: !Agreed(DiffOf(lists), g, m)
  {
    var d := DiffOf(lists);
    forall m | Agreed(d, g, m)
      ensures false
    {
      AgreedAfterDiff(lists, g, m);
      DiffMembers(lists, i, g, m);
    }
    if Common(lists, g) {
      var j, m :| 0 <= j < |lists| && m in lists[j][g] && !Agreed(lists, g, m);
      DiffMembers(lists, j, g, m);
    } else {
      var k :| 0 <= k < |lists| && g !in lists[k];
      DiffGroups(lists, k, g);
    }
  }

  /** `nmldiff` is idempotent: the diff of a diff is the diff itself. */
  lemma DiffIdempotent<V>(lists: seq<Namelist<V>>)
    ensures DiffOf(DiffOf(lists)) == DiffOf(lists)
  {
    var d := DiffOf(lists);
    forall i | 0 <= i < |d|
      ensures DiffFile(d, i) == d[i]
    {
      forall g | g in d[i]
        ensures !Dropped(d, g)
        ensures Common(d, g) ==> Reduced(d, g, i) == d[i][g]
      {
        NothingLeftToRemove(lists, g, i);
      }
    }
  }

  // ---------------------------------------------------------------------
  // States the loops pass through, stated file by file and group by group

  /** `after` has as many files as `before` and differs from it at most in group `g`. */
  ghost predicate OnlyGroupChanged<V>(before: seq<Namelist<V>>, after: seq<Namelist<V>>, g: Name)
  {
    && |before| == |after|
    && forall i :: 0 <= i < |before| ==>
         forall h :: h != g ==>
           && (h in after[i] <==> h in before[i])
           && (h in after[i] ==> after[i][h] == before[i][h])
  }

  /** `after` is `before` with group `g` put through both passes. */
  ghost predicate GroupProcessed<V>(before: seq<Namelist<V>>, after: seq<Namelist<V>>, g: Name)
  {
    && OnlyGroupChanged(before, after, g)
    && forall i :: 0 <= i < |before| ==>
         && (g in after[i] <==> g in before[i] && !Dropped(before, g))
         && (g in after[i] ==>
               after[i][g] == if Common(before, g) then Reduced(before, g, i) else before[i][g])
  }

  /** Group `h` of `start` survives once the groups in `done` have been processed. */
  ghost predicate GroupKept<V>(start: seq<Namelist<V>>, done: set<Name>, h: Name)
  {
    !(h in done && Dropped(start, h))
  }

  /** Group `h` of file `i` once the groups in `done` have been processed. */
  ghost function GroupAfter<V>(start: seq<Namelist<V>>, done: set<Name>, i: nat, h: Name): Group<V>
    requires i < |start| && h in start[i]
  {
    if h in done && Common(start, h) then Reduced(start, h, i) else start[i][h]
  }

  /** `lists` is `start` with the groups in `done` processed. */
  ghost predicate DiffedUpTo<V>(start: seq<Namelist<V>>, lists: seq<Namelist<V>>, done: set<Name>)
  {
    && |lists| == |start|
    && forall i :: 0 <= i < |start| ==>
         forall h ::
           && (h in lists[i] <==> h in start[i] && GroupKept(start, done, h))
           && (h in lists[i] ==> lists[i][h] == GroupAfter(start, done, i, h))
  }

  /** Member `m` of group `g` survives once the members in `gone` have been visited. */
  ghost predicate MemberKept<V>(start: seq<Namelist<V>>, g: Name, gone: set<Name>, m: Name)
  {
    !(m in gone && Agreed(start, g, m))
  }

  /** `lists` is `start` with the agreed members among `gone` deleted from the common group `g`. */
  ghost predicate MembersStripped<V>(start: seq<Namelist<V>>, lists: seq<Namelist<V>>, g: Name, gone: set<Name>)
  {
    && Common(start, g)
    && OnlyGroupChanged(start, lists, g)
    && forall i :: 0 <= i < |start| ==>
         && g in lists[i]
         && forall m ::
              && (m in lists[i][g] <==> m in start[i][g] && MemberKept(start, g, gone, m))
              && (m in lists[i][g] ==> lists[i][g][m] == start[i][g][m])
  }

  // ---------------------------------------------------------------------
  // Lemmas connecting the loops to the specification

  /** Group `g` looks the same in both collections. */
  ghost predicate SameGroup<V>(a: seq<Namelist<V>>, b: seq<Namelist<V>>, g: Name)
  {
    && |a| == |b|
    && forall i :: 0 <= i < |a| ==> (g in a[i] <==> g in b[i]) && (g in a[i] ==> a[i][g] == b[i][g])
  }

  /** Everything `nmldiff` decides about group `g` depends on group `g` alone. */
  lemma SameGroupSameVerdict<V>(a: seq<Namelist<V>>, b: seq<Namelist<V>>, g: Name)
    requires SameGroup(a, b, g)
    ensures Common(a, g) == Common(b, g)
    ensures forall m :: Agreed(a, g, m) == Agreed(b, g, m)
    ensures forall i :: 0 <= i < |a| && g in a[i] ==> Reduced(a, g, i) == Reduced(b, g, i)
    ensures Dropped(a, g) == Dropped(b, g)
  {
    assert forall m :: Agreed(a, g, m) == Agreed(b, g, m);
  }

  lemma {:induction false} GroupUnionSameGroup<V>(a: seq<Namelist<V>>, b: seq<Namelist<V>>, g: Name)
    requires SameGroup(a, b, g)
    ensures GroupUnion(a, g) == GroupUnion(b, g)
    decreases |a|
  {
    if |a| > 0 {
      GroupUnionSameGroup(a[..|a| - 1], b[..|b| - 1], g);
    }
  }

  lemma DiffedUpToNone<V>(start: seq<Namelist<V>>)
    ensures DiffedUpTo(start, start, {})
  {
  }

  /** Processing one more group extends the partial result. */
  lemma DiffedUpToStep<V>(start: seq<Namelist<V>>, cur: seq<Namelist<V>>, next: seq<Namelist<V>>, done: set<Name>, g: Name)
    requires DiffedUpTo(start, cur, done) && g !in done
    requires GroupProcessed(cur, next, g)
    ensures DiffedUpTo(start, next, done + {g})
  {
    assert SameGroup(cur, start, g);
    SameGroupSameVerdict(cur, start, g);
    forall i | 0 <= i < |start|
      ensures forall h ::
        && (h in next[i] <==> h in start[i] && GroupKept(start, done + {g}, h))
        && (h in next[i] ==> next[i][h] == GroupAfter(start, done + {g}, i, h))
    {
      forall h | h != g
        ensures h in next[i] <==> h in start[i] && GroupKept(start, done + {g}, h)
        ensures h in next[i] ==> next[i][h] == GroupAfter(start, done + {g}, i, h)
      {
        assert h in next[i] <==> h in cur[i];
      }
    }
  }

  /** Once every group is processed the partial result is the whole diff. */
  lemma DiffedUpToAll<V>(start: seq<Namelist<V>>, lists: seq<Namelist<V>>, done: set<Name>)
    requires DiffedUpTo(start, lists, done) && AllGroups(start) <= done
    ensures lists == DiffOf(start)
  {
    forall i | 0 <= i < |start|
      ensures lists[i] == DiffFile(start, i)
    {
      forall h | h in start[i]
        ensures h in done
      {
        assert h in AllGroups(start);
      }
      FileDone(start, lists, done, i);
    }
  }

  lemma FileDone<V>(start: seq<Namelist<V>>, lists: seq<Namelist<V>>, done: set<Name>, i: nat)
    requires DiffedUpTo(start, lists, done) && i < |start| && start[i].Keys <= done
    ensures lists[i] == DiffFile(start, i)
  {
    forall h
      ensures h in lists[i] <==> h in DiffFile(start, i)
      ensures h in lists[i] ==> lists[i][h] == DiffFile(start, i)[h]
    {
    }
  }

  /** Comparing each file's value with the superset's value, as the source does,
      is the same as every file agreeing: which file wins in the superset is irrelevant. */
  lemma AgreedIffMatchesSuperset<V>(lists: seq<Namelist<V>>, g: Name, m: Name)
    requires forall i :: 0 <= i < |lists| ==> g in lists[i] && m in lists[i][g]
    requires g in SupersetOf(lists) && m in SupersetOf(lists)[g]
    ensures Agreed(lists, g, m) <==>
      forall i :: 0 <= i < |lists| ==> lists[i][g][m] == SupersetOf(lists)[g][m]
  {
    assert g in AllGroups(lists);
    SupersetLastWins(lists, g, m, |lists| - 1);
  }

  /** In the middle of the member pass over `g`, the two scans over a member `m`
      not yet visited see the original presence and values of `m`. */
  lemma MemberVerdict<V>(start: seq<Namelist<V>>, lists: seq<Namelist<V>>, g: Name, gone: set<Name>, m: Name)
    requires m !in gone && MembersStripped(start, lists, g, gone)
    requires g in SupersetOf(start) && m in SupersetOf(start)[g]
    ensures (forall i :: 0 <= i < |lists| ==> m in lists[i][g]) <==>
            (forall i :: 0 <= i < |start| ==> m in start[i][g])
    ensures (forall i :: 0 <= i < |start| ==> m in start[i][g]) ==>
      ((forall i :: 0 <= i < |lists| ==> lists[i][g][m] == SupersetOf(start)[g][m]) <==> Agreed(start, g, m))
  {
    assert forall i :: 0 <= i < |start| ==> (m in lists[i][g] <==> m in start[i][g]);
    if forall i :: 0 <= i < |start| ==> m in start[i][g] {
      assert forall i :: 0 <= i < |start| ==> lists[i][g][m] == start[i][g][m];
      AgreedIffMatchesSuperset(start, g, m);
    }
  }

  /** Once every member of the group has been visited, each file holds the reduced group. */
  lemma MemberPassDone<V>(start: seq<Namelist<V>>, lists: seq<Namelist<V>>, g: Name, gone: set<Name>)
    requires MembersStripped(start, lists, g, gone) && AllMembers(start, g) <= gone
    ensures forall i :: 0 <= i < |start| ==> lists[i][g] == Reduced(start, g, i)
  {
    forall i | 0 <= i < |start|
      ensures lists[i][g] == Reduced(start, g, i)
    {
      forall m
        ensures m in lists[i][g] <==> m in Reduced(start, g, i)
        ensures m in lists[i][g] ==> lists[i][g][m] == Reduced(start, g, i)[m]
      {
        if m in start[i][g] {
          assert m in AllMembers(start, g);
        }
      }
    }
  }

  /** Deleting an agreed member extends the member pass by that member. */
  lemma MembersStrippedStep<V>(start: seq<Namelist<V>>, cur: seq<Namelist<V>>, next: seq<Namelist<V>>,
                               g: Name, gone: set<Name>, m: Name, deleted: bool)
    requires MembersStripped(start, cur, g, gone)
    requires deleted <==> Agreed(start, g, m)
    requires |next| == |cur|
    requires forall i :: 0 <= i < |cur| ==> next[i] == if deleted then cur[i][g := cur[i][g] - {m}] else cur[i]
    ensures MembersStripped(start, next, g, gone + {m})
  {
  }

  /** Processing earlier groups leaves the superset's entry for a group not yet processed as it was. */
  lemma SupersetEntryUnchanged<V>(start: seq<Namelist<V>>, cur: seq<Namelist<V>>, done: set<Name>, g: Name)
    requires DiffedUpTo(start, cur, done) && g !in done && g in SupersetOf(start)
    ensures g in SupersetOf(cur) && SupersetOf(cur)[g] == SupersetOf(start)[g]
  {
    assert SameGroup(start, cur, g);
    GroupUnionSameGroup(start, cur, g);
    var i :| 0 <= i < |start| && g in start[i];
    assert g in AllGroups(cur);
  }

  /** The member pass followed by the emptiness test and the group deletion process a common group. */
  lemma CommonGroupProcessed<V>(start: seq<Namelist<V>>, stripped: seq<Namelist<V>>, after: seq<Namelist<V>>,
                                g: Name, removed: bool)
    requires Common(start, g) && OnlyGroupChanged(start, stripped, g)
    requires forall i :: 0 <= i < |stripped| ==> g in stripped[i] && stripped[i][g] == Reduced(start, g, i)
    requires removed == forall i :: 0 <= i < |stripped| ==> |stripped[i][g]| == 0
    requires |after| == |stripped|
    requires forall i :: 0 <= i < |stripped| ==> after[i] == if removed then stripped[i] - {g} else stripped[i]
    ensures GroupProcessed(start, after, g)
  {
    DroppedIffEmptied(start, g);
  }

  /** A group missing from some file is left as it is. */
  lemma NonCommonGroupProcessed<V>(lists: seq<Namelist<V>>, g: Name)
    requires !Common(lists, g)
    ensures GroupProcessed(lists, lists, g)
  {
  }

  // ---------------------------------------------------------------------
  // The read-only scans of the source: `and` accumulated over the files

  /** `deletegroup` after the presence scan over the files. */
  method InEveryFile<V>(lists: seq<Namelist<V>>, g: Name) returns (b: bool)
    ensures b == Common(lists, g)
  {
    b := true;
    for i := 0 to |lists|
      invariant b == forall k :: 0 <= k < i ==> g in lists[k]
    {
      b := b && g in lists[i];
    }
  }

  /** `deletemem` after the presence scan over the files. */
  method InEveryGroup<V>(lists: seq<Namelist<V>>, g: Name, m: Name) returns (b: bool)
    requires Common(lists, g)
    ensures b == forall i :: 0 <= i < |lists| ==> m in lists[i][g]
  {
    b := true;
    for i := 0 to |lists|
      invariant b == forall k :: 0 <= k < i ==> m in lists[k][g]
    {
      b := b && m in lists[i][g];
    }
  }

  /** `deletemem` after the value scan: every file holds value `v` for the member. */
  method AllEqualTo<V(==)>(lists: seq<Namelist<V>>, g: Name, m: Name, v: V) returns (b: bool)
    requires forall i :: 0 <= i < |lists| ==> g in lists[i] && m in lists[i][g]
    ensures b == forall i :: 0 <= i < |lists| ==> lists[i][g][m] == v
  {
    b := true;
    for i := 0 to |lists|
      invariant b == forall k :: 0 <= k < i ==> lists[k][g][m] == v
    {
      b := b && lists[i][g][m] == v;
    }
  }

  /** `deletegroup` after the emptiness scan over the files. */
  method AllEmpty<V>(lists: seq<Namelist<V>>, g: Name) returns (b: bool)
    requires Common(lists, g)
    ensures b == forall i :: 0 <= i < |lists| ==> |lists[i][g]| == 0
  {
    b := true;
    for i := 0 to |lists|
      invariant b == forall k :: 0 <= k < i ==> |lists[k][g]| == 0
    {
      b := b && |lists[i][g]| == 0;
    }
  }

  // ---------------------------------------------------------------------
  // The collection, changed in place

  /** The caller's dict `nmlall`, which `nmldiff` changes in place: its keys
      `names` and its namelists `lists`, in iteration order. */
  class Collection<V(==)> {
    const names: seq<Name>
    var lists: seq<Namelist<V>>

    ghost predicate Valid()
      reads this
    {
      WellFormed(names, lists)
    }

    constructor (names: seq<Name>, lists: seq<Namelist<V>>)
      requires WellFormed(names, lists)
      ensures Valid() && this.names == names && this.lists == lists
    {
      this.names := names;
      this.lists := lists;
    }

    /** `nmldiff(nmlall)`: the keys stay, the namelists become their diff. */
    method Diff()
      requires Valid()
      modifies this
      ensures Valid()
      ensures lists == DiffOf(old(lists))
    {
      var ss := Superset(lists);
      ghost var start := lists;
      SupersetKeys(start);
      DiffedUpToNone(start);
      var todo := ss.Keys;
      ghost var done: set<Name> := {};
      while todo != {}
        invariant Valid()
        invariant todo <= ss.Keys
        invariant forall x :: x in ss.Keys ==> x in todo || x in done
        invariant forall x :: x in todo ==> x !in done
        invariant DiffedUpTo(start, lists, done)
        decreases todo
      {
        var g :| g in todo;
        ghost var cur := lists;
        SupersetEntryUnchanged(start, cur, done, g);
        DiffGroup(g, ss[g]);
        DiffedUpToStep(start, cur, lists, done, g);
        done := done + {g};
        todo := todo - {g};
      }
      DiffedUpToAll(start, lists, done);
    }

    /** The body of the loop over the superset's groups, for group `g` whose
        superset entry is `ssg`. */
    method DiffGroup(g: Name, ssg: Group<V>)
      requires Valid()
      requires g in SupersetOf(lists) && ssg == SupersetOf(lists)[g]
      modifies this
      ensures Valid()
      ensures GroupProcessed(old(lists), lists, g)
    {
      var deleteGroup := InEveryFile(lists, g);
      if deleteGroup {
        ghost var start := lists;
        StripAgreedMembers(g, ssg);
        ghost var stripped := lists;
        deleteGroup := AllEmpty(lists, g);
        if deleteGroup {
          RemoveGroup(g);
        }
        CommonGroupProcessed(start, stripped, lists, g, deleteGroup);
      } else {
        NonCommonGroupProcessed(lists, g);
      }
    }

    /** The loop over the members of the superset's group `g`. */
    method StripAgreedMembers(g: Name, ssg: Group<V>)
      requires Valid() && Common(lists, g)
      requires g in SupersetOf(lists) && ssg == SupersetOf(lists)[g]
      modifies this
      ensures Valid()
      ensures OnlyGroupChanged(old(lists), lists, g)
      ensures forall i :: 0 <= i < |lists| ==> g in lists[i] && lists[i][g] == Reduced(old(lists), g, i)
    {
      ghost var start := lists;
      var mems := ssg.Keys;
      ghost var gone: set<Name> := {};
      while mems != {}
        invariant Valid() && |lists| == |start|
        invariant mems <= ssg.Keys
        invariant forall x :: x in ssg.Keys ==> x in mems || x in gone
        invariant forall x :: x in mems ==> x !in gone
        invariant MembersStripped(start, lists, g, gone)
        decreases mems
      {
        var m :| m in mems;
        var deleteMem := InEveryGroup(lists, g, m);
        if deleteMem {
          deleteMem := AllEqualTo(lists, g, m, ssg[m]);
        }
        MemberVerdict(start, lists, g, gone, m);
        ghost var cur := lists;
        if deleteMem {
          RemoveMember(g, m);
        }
        MembersStrippedStep(start, cur, lists, g, gone, m, deleteMem);
        gone := gone + {m};
        mems := mems - {m};
      }
      SupersetKeys(start);
      MemberPassDone(start, lists, g, gone);
    }

    /** `del nmlall[nml][group][mem]` for every file. */
    method RemoveMember(g: Name, m: Name)
      requires Valid() && Common(lists, g)
      modifies this
      ensures Valid()
      ensures forall i :: 0 <= i < |lists| ==> lists[i] == old(lists)[i][g := old(lists)[i][g] - {m}]
    {
      for i := 0 to |lists|
        invariant Valid() && |lists| == |old(lists)|
        invariant forall k :: 0 <= k < |lists| ==>
          lists[k] == if k < i then old(lists)[k][g := old(lists)[k][g] - {m}] else old(lists)[k]
      {
        lists := lists[i := lists[i][g := lists[i][g] - {m}]];
      }
    }

    /** `del nmlall[nml][group]` for every file. */
    method RemoveGroup(g: Name)
      requires Valid()
      modifies this
      ensures Valid()
      ensures forall i :: 0 <= i < |lists| ==> lists[i] == old(lists)[i] - {g}
    {
      for i := 0 to |lists|
        invariant Valid() && |lists| == |old(lists)|
        invariant forall k :: 0 <= k < |lists| ==>
          lists[k] == if k < i then old(lists)[k] - {g} else old(lists)[k]
      {
        lists := lists[i := lists[i] - {g}];
      }
    }
  }
}
