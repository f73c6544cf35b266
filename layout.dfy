/**
  What the text that `strnmldict` produces looks like: how many lines it
  has, where the columns of the plain listing start, how many cells each
  line of the Markdown table has, and that both forms are empty exactly
  when no file has a group.
*/
module Layout {
  import opened Namelists
  import opened LexOrder
  import opened Text
  import opened Render

  /** How many of `c` a piece holding `n` column separators and nothing else of
      interest has: `n` for the separator itself, none for the line break. */
  function Bars(c: char, n: nat): nat
  {
    if c == '|' then n else 0
  }

  /** 1 for the line break, else 0. */
  function Break(c: char): nat
  {
    if c == '\n' then 1 else 0
  }

  /** The text of no value held by namelist `nl` contains `c`. */
  ghost predicate ValuesFree<V>(c: char, nl: Namelist<V>, repr: V -> string)
  {
    forall g, m :: g in nl && m in nl[g] ==> c !in repr(nl[g][m])
  }

  /** The text of no value held by any file contains `c`. */
  ghost predicate AllValuesFree<V>(c: char, lists: seq<Namelist<V>>, repr: V -> string)
  {
    forall i :: 0 <= i < |lists| ==> ValuesFree(c, lists[i], repr)
  }

  /** No file key, group name, member name or value text of the collection contains `c`. */
  ghost predicate Free<V>(c: char, names: seq<Name>, lists: seq<Namelist<V>>, repr: V -> string)
  {
    (forall n :: n in names ==> c !in n) &&
    (forall i, g :: 0 <= i < |lists| && g in lists[i] ==> c !in g) &&
    (forall i, g, m :: 0 <= i < |lists| && g in lists[i] && m in lists[i][g] ==> c !in m) &&
    AllValuesFree(c, lists, repr)
  }

  /** No group or member name of the namelist contains `c`. */
  ghost predicate FreeNames<V>(c: char, ss: Namelist<V>)
  {
    forall g :: g in ss ==> c !in g && forall m :: m in ss[g] ==> c !in m
  }

  lemma SupersetFree<V>(c: char, names: seq<Name>, lists: seq<Namelist<V>>, repr: V -> string)
    requires Free(c, names, lists, repr)
    ensures FreeNames(c, SupersetOf(lists))
  {
    var ss := SupersetOf(lists);
    SupersetKeys(lists);
    forall g | g in ss
      ensures c !in g && forall m :: m in ss[g] ==> c !in m
    {
      assert g in AllGroups(lists);
      forall m | m in ss[g]
        ensures c !in m
      {
        assert m in AllMembers(lists, g);
      }
    }
  }

  /** The character counts of the literal pieces of the table. */
  lemma LiteralCounts(c: char)
    requires c == '\n' || c == '|'
    ensures Occurrences(c, " | ") == Bars(c, 1) && Occurrences(c, "| ") == Bars(c, 1)
    ensures Occurrences(c, "\n| ") == Bars(c, 1) + Break(c)
    ensures Occurrences(c, "\n|-") == Bars(c, 1) + Break(c)
    ensures Occurrences(c, ":|") == Bars(c, 1) && Occurrences(c, "&") == 0
  {
    assert "\n| " == "\n|" + " ";
    OccurrencesAppend(c, "\n|", " ");
  }

  /** Counts of `k` per item add up. */
  lemma MulAddLeft(n: nat, a: nat, b: nat, k: nat, x: nat, y: nat)
    requires n == a + b && x == a * k && y == b * k
    ensures x + y == n * k
  {
  }

  // ---------------------------------------------------------------------
  // Counting characters in the pieces

  lemma LJustFree(c: char, s: string, w: nat)
    requires c !in s && c != ' '
    ensures Occurrences(c, LJust(s, w)) == 0
  {
    var r := LJust(s, w);
    forall i | 0 <= i < |r|
      ensures r[i] != c
    {
      if i < |s| {
        assert r[i] == r[..|s|][i];
      }
    }
    NoOccurrences(c, r);
  }

  lemma RepeatFree(c: char, d: char, n: nat)
    requires c != d
    ensures Occurrences(c, Repeat(d, n)) == 0
  {
    NoOccurrences(c, Repeat(d, n));
  }

  lemma CellFree<V>(c: char, nl: Namelist<V>, g: Name, m: Name, repr: V -> string)
    requires ValuesFree(c, nl, repr)
    ensures Occurrences(c, Cell(nl, g, m, repr)) == 0
  {
    NoOccurrences(c, Cell(nl, g, m, repr));
  }

  // ---------------------------------------------------------------------
  // The plain listing

  /** A file line ends in its only line break. */
  lemma FileLineBreaks(fn: Name, w: nat, cell: string)
    requires '\n' !in fn && '\n' !in cell
    ensures Occurrences('\n', FileLine(fn, w, cell)) == 1
  {
    var a := LJust(fn, w);
    LJustFree('\n', fn, w);
    NoOccurrences('\n', cell);
    OccurrencesAppend('\n', a, " : ");
    OccurrencesAppend('\n', a + " : ", cell);
    OccurrencesAppend('\n', a + " : " + cell, "\n");
  }

  /** The file key fills the first `w` columns, padded with blanks; " : "
      follows; the value starts in column `w + 3` and the line ends there. */
  lemma FileLineLayout(fn: Name, w: nat, cell: string)
    requires |fn| <= w
    ensures var line := FileLine(fn, w, cell);
      |line| == w + 3 + |cell| + 1 &&
      line[..|fn|] == fn &&
      (forall i :: |fn| <= i < w ==> line[i] == ' ') &&
      line[w..w + 3] == " : " &&
      line[w + 3..w + 3 + |cell|] == cell &&
      line[|line| - 1] == '\n'
  {
    var a := LJust(fn, w);
    var line := FileLine(fn, w, cell);
    assert line == a + " : " + cell + "\n";
    assert line[..w] == a;
    assert line[..|fn|] == a[..|fn|];
  }

  /** The two heading lines of a member block: the first holds `&` in column
      `w + 2` and the group name from column `w + 3`; the second holds the
      member name from column `w + 3`, the column of the values below it. */
  lemma HeadingLayout(g: Name, m: Name, w: nat)
    ensures var h := Heading(g, m, w);
      var second := w + 2 + 1 + |g| + 1;
      |h| == second + w + 2 + 1 + |m| + 1 &&
      (forall i :: 0 <= i < w + 2 ==> h[i] == ' ') &&
      h[w + 2] == '&' &&
      h[w + 3..w + 3 + |g|] == g &&
      h[second - 1] == '\n' &&
      (forall i :: second <= i < second + w + 3 ==> h[i] == ' ') &&
      h[second + w + 3..second + w + 3 + |m|] == m &&
      h[|h| - 1] == '\n'
  {
    var pad := Repeat(' ', w + 2);
    var h := Heading(g, m, w);
    var first := pad + "&" + g + "\n";
    var rest := pad + " " + m + "\n";
    assert h == first + rest;
    assert h[..|first|] == first;
    assert h[|first|..] == rest;
  }

  lemma HeadingBreaks(g: Name, m: Name, w: nat)
    requires '\n' !in g && '\n' !in m
    ensures Occurrences('\n', Heading(g, m, w)) == 2
  {
    var pad := Repeat(' ', w + 2);
    RepeatFree('\n', ' ', w + 2);
    NoOccurrences('\n', g);
    NoOccurrences('\n', m);
    OccurrencesAppend('\n', pad, "&");
    OccurrencesAppend('\n', pad + "&", g);
    OccurrencesAppend('\n', pad + "&" + g, "\n");
    OccurrencesAppend('\n', pad + "&" + g + "\n", pad);
    OccurrencesAppend('\n', pad + "&" + g + "\n" + pad, " ");
    OccurrencesAppend('\n', pad + "&" + g + "\n" + pad + " ", m);
    OccurrencesAppend('\n', pad + "&" + g + "\n" + pad + " " + m, "\n");
  }

  /** One line per file. */
  lemma {:induction false} FileLinesBreaks<V>(names: seq<Name>, lists: seq<Namelist<V>>, fns: seq<Name>,
                                              g: Name, m: Name, w: nat, repr: V -> string)
    requires |names| == |lists|
    requires forall k :: 0 <= k < |fns| ==> fns[k] in names && '\n' !in fns[k]
    requires AllValuesFree('\n', lists, repr)
    ensures Occurrences('\n', FileLines(names, lists, fns, g, m, w, repr)) == |fns|
    decreases |fns|
  {
    if |fns| > 0 {
      var front := fns[..|fns| - 1];
      var fn := fns[|fns| - 1];
      var cell := Cell(lists[IndexOf(names, fn)], g, m, repr);
      FileLinesBreaks(names, lists, front, g, m, w, repr);
      NoOccurrences('\n', cell);
      FileLineBreaks(fn, w, cell);
      OccurrencesAppend('\n', FileLines(names, lists, front, g, m, w, repr), FileLine(fn, w, cell));
    }
  }

  /** A member block has two heading lines and one line per file. */
  lemma MemberBlockBreaks<V>(names: seq<Name>, lists: seq<Namelist<V>>, fns: seq<Name>,
                             g: Name, m: Name, w: nat, repr: V -> string)
    requires |names| == |lists|
    requires forall k :: 0 <= k < |fns| ==> fns[k] in names && '\n' !in fns[k]
    requires AllValuesFree('\n', lists, repr)
    requires '\n' !in g && '\n' !in m
    ensures Occurrences('\n', MemberBlock(names, lists, fns, g, m, w, repr)) == 2 + |fns|
  {
    HeadingBreaks(g, m, w);
    FileLinesBreaks(names, lists, fns, g, m, w, repr);
    OccurrencesAppend('\n', Heading(g, m, w), FileLines(names, lists, fns, g, m, w, repr));
  }

  lemma {:induction false} GroupBlocksBreaks<V>(names: seq<Name>, lists: seq<Namelist<V>>, fns: seq<Name>,
                                                g: Name, mems: seq<Name>, w: nat, repr: V -> string)
    requires |names| == |lists|
    requires forall k :: 0 <= k < |fns| ==> fns[k] in names && '\n' !in fns[k]
    requires AllValuesFree('\n', lists, repr)
    requires '\n' !in g && forall k :: 0 <= k < |mems| ==> '\n' !in mems[k]
    ensures Occurrences('\n', GroupBlocks(names, lists, fns, g, mems, w, repr)) == |mems| * (2 + |fns|)
    decreases |mems|
  {
    if |mems| > 0 {
      var front := mems[..|mems| - 1];
      var m := mems[|mems| - 1];
      GroupBlocksBreaks(names, lists, fns, g, front, w, repr);
      MemberBlockBreaks(names, lists, fns, g, m, w, repr);
      MulAddLeft(|mems|, |front|, 1, 2 + |fns|, |front| * (2 + |fns|), 2 + |fns|);
      OccurrencesAppend('\n', GroupBlocks(names, lists, fns, g, front, w, repr),
                        MemberBlock(names, lists, fns, g, m, w, repr));
    }
  }

  lemma {:induction false} PlainBlocksBreaks<V>(names: seq<Name>, lists: seq<Namelist<V>>, fns: seq<Name>,
                                                ss: Namelist<V>, groups: seq<Name>, w: nat, repr: V -> string)
    requires |names| == |lists|
    requires forall k :: 0 <= k < |fns| ==> fns[k] in names && '\n' !in fns[k]
    requires AllValuesFree('\n', lists, repr)
    requires FreeNames('\n', ss)
    ensures Occurrences('\n', PlainBlocks(names, lists, fns, ss, groups, w, repr))
      == MemberCount(ss, groups) * (2 + |fns|)
    decreases |groups|
  {
    if |groups| > 0 {
      var front := groups[..|groups| - 1];
      var g := groups[|groups| - 1];
      PlainBlocksBreaks(names, lists, fns, ss, front, w, repr);
      var done := PlainBlocks(names, lists, fns, ss, front, w, repr);
      if g in ss {
        var mems := SortedSeq(ss[g].Keys);
        SortedSeqSpec(ss[g].Keys);
        assert forall k :: 0 <= k < |mems| ==> mems[k] in ss[g];
        var blocks := GroupBlocks(names, lists, fns, g, mems, w, repr);
        GroupBlocksBreaks(names, lists, fns, g, mems, w, repr);
        OccurrencesAppend('\n', done, blocks);
        assert PlainBlocks(names, lists, fns, ss, groups, w, repr) == done + blocks;
        assert MemberCount(ss, groups) == MemberCount(ss, front) + |mems|;
        MulAddLeft(MemberCount(ss, groups), MemberCount(ss, front), |mems|, 2 + |fns|, Occurrences('\n', done), Occurrences('\n', blocks));
      } else {
        assert PlainBlocks(names, lists, fns, ss, groups, w, repr) == done + "";
        assert MemberCount(ss, groups) == MemberCount(ss, front);
        OccurrencesAppend('\n', done, "");
      }
    }
  }

  /** The plain listing has, for every member of every group of the superset,
      two heading lines and one line per file. */
  lemma PlainLineCount<V>(names: seq<Name>, lists: seq<Namelist<V>>, repr: V -> string)
    requires WellFormed(names, lists)
    requires Free('\n', names, lists, repr)
    ensures Occurrences('\n', PlainText(names, lists, repr))
      == MemberCount(SupersetOf(lists), SortedSeq(SupersetOf(lists).Keys)) * (2 + |names|)
  {
    var fns := SortedSeq(KeySet(names));
    SortedKeys(names);
    SupersetFree('\n', names, lists, repr);
    PlainBlocksBreaks(names, lists, fns, SupersetOf(lists), SortedSeq(SupersetOf(lists).Keys), MaxLen(fns), repr);
  }

  // ---------------------------------------------------------------------
  // The Markdown table: every line has the same number of `|`

  lemma HeaderStartCount(c: char, w: nat)
    requires c == '\n' || c == '|'
    ensures Occurrences(c, HeaderStart(w)) == Bars(c, 2)
  {
    LiteralCounts(c);
    LJustFree(c, "File", w);
    OccurrencesAppend(c, "| ", LJust("File", w));
    OccurrencesAppend(c, "| " + LJust("File", w), " | ");
  }

  lemma HeaderCellCount(c: char, g: Name, m: Name)
    requires c == '\n' || c == '|'
    requires c !in g && c !in m
    ensures Occurrences(c, HeaderCell(g, m)) == Bars(c, 1)
  {
    NoOccurrences(c, g);
    NoOccurrences(c, m);
    NoOccurrences(c, "<br>");
    LiteralCounts(c);
    OccurrencesAppend(c, "&", g);
    OccurrencesAppend(c, "&" + g, "<br>");
    OccurrencesAppend(c, "&" + g + "<br>", m);
    OccurrencesAppend(c, "&" + g + "<br>" + m, " | ");
  }

  lemma {:induction false} HeaderCellsCount(c: char, g: Name, mems: seq<Name>)
    requires c == '\n' || c == '|'
    requires c !in g && forall k :: 0 <= k < |mems| ==> c !in mems[k]
    ensures Occurrences(c, HeaderCells(g, mems)) == Bars(c, |mems|)
    decreases |mems|
  {
    if |mems| > 0 {
      var front := mems[..|mems| - 1];
      HeaderCellsCount(c, g, front);
      HeaderCellCount(c, g, mems[|mems| - 1]);
      OccurrencesAppend(c, HeaderCells(g, front), HeaderCell(g, mems[|mems| - 1]));
    }
  }

  lemma {:induction false} HeaderAllCount<V>(c: char, ss: Namelist<V>, groups: seq<Name>)
    requires c == '\n' || c == '|'
    requires FreeNames(c, ss)
    ensures Occurrences(c, HeaderAll(ss, groups)) == Bars(c, MemberCount(ss, groups))
    decreases |groups|
  {
    if |groups| > 0 {
      var front := groups[..|groups| - 1];
      var g := groups[|groups| - 1];
      HeaderAllCount(c, ss, front);
      if g in ss {
        var mems := SortedSeq(ss[g].Keys);
        SortedSeqSpec(ss[g].Keys);
        assert forall k :: 0 <= k < |mems| ==> mems[k] in ss[g];
        HeaderCellsCount(c, g, mems);
        OccurrencesAppend(c, HeaderAll(ss, front), HeaderCells(g, mems));
      } else {
        OccurrencesAppend(c, HeaderAll(ss, front), "");
      }
    }
  }

  lemma MdHeaderCount<V>(c: char, ss: Namelist<V>, w: nat)
    requires c == '\n' || c == '|'
    requires FreeNames(c, ss)
    ensures Occurrences(c, MdHeader(ss, w)) == Bars(c, MemberCount(ss, SortedSeq(ss.Keys)) + 2)
  {
    HeaderStartCount(c, w);
    HeaderAllCount(c, ss, SortedSeq(ss.Keys));
    OccurrencesAppend(c, HeaderStart(w), HeaderAll(ss, SortedSeq(ss.Keys)));
  }

  /** The alignment line starts the second line and has `n + 2` bars. */
  lemma MdSeparatorCount(c: char, n: nat, w: nat)
    requires c == '\n' || c == '|'
    ensures Occurrences(c, MdSeparator(n, w)) == Bars(c, n + 2) + Break(c)
  {
    var dashes := Repeat('-', w);
    RepeatFree(c, '-', w);
    LiteralCounts(c);
    assert "--:|" == "--:" + "|";
    NoOccurrences(c, "--:");
    OccurrencesAppend(c, "--:", "|");
    OccurrencesRepeat(c, "--:|", n);
    OccurrencesAppend(c, "\n|-", dashes);
    OccurrencesAppend(c, "\n|-" + dashes, ":|");
    OccurrencesAppend(c, "\n|-" + dashes + ":|", RepeatString("--:|", n));
  }

  lemma {:induction false} RowCellsCount<V>(c: char, nl: Namelist<V>, g: Name, mems: seq<Name>, repr: V -> string)
    requires c == '\n' || c == '|'
    requires ValuesFree(c, nl, repr)
    ensures Occurrences(c, RowCells(nl, g, mems, repr)) == Bars(c, |mems|)
    decreases |mems|
  {
    if |mems| > 0 {
      var front := mems[..|mems| - 1];
      var cell := Cell(nl, g, mems[|mems| - 1], repr);
      RowCellsCount(c, nl, g, front, repr);
      CellFree(c, nl, g, mems[|mems| - 1], repr);
      LiteralCounts(c);
      OccurrencesAppend(c, cell, " | ");
      OccurrencesAppend(c, RowCells(nl, g, front, repr), RowCell(cell));
    }
  }

  lemma {:induction false} RowAllCount<V>(c: char, nl: Namelist<V>, ss: Namelist<V>, groups: seq<Name>, repr: V -> string)
    requires c == '\n' || c == '|'
    requires ValuesFree(c, nl, repr)
    ensures Occurrences(c, RowAll(nl, ss, groups, repr)) == Bars(c, MemberCount(ss, groups))
    decreases |groups|
  {
    if |groups| > 0 {
      var front := groups[..|groups| - 1];
      var g := groups[|groups| - 1];
      RowAllCount(c, nl, ss, front, repr);
      if g in ss {
        RowCellsCount(c, nl, g, SortedSeq(ss[g].Keys), repr);
        OccurrencesAppend(c, RowAll(nl, ss, front, repr), RowCells(nl, g, SortedSeq(ss[g].Keys), repr));
      } else {
        OccurrencesAppend(c, RowAll(nl, ss, front, repr), "");
      }
    }
  }

  /** A row starts a new line and has as many bars as the header. */
  lemma MdRowCount<V>(c: char, fn: Name, nl: Namelist<V>, ss: Namelist<V>, repr: V -> string)
    requires c == '\n' || c == '|'
    requires c !in fn && ValuesFree(c, nl, repr)
    ensures Occurrences(c, MdRow(fn, nl, ss, repr)) == Bars(c, MemberCount(ss, SortedSeq(ss.Keys)) + 2) + Break(c)
  {
    NoOccurrences(c, fn);
    LiteralCounts(c);
    OccurrencesAppend(c, "\n| ", fn);
    OccurrencesAppend(c, "\n| " + fn, " | ");
    RowAllCount(c, nl, ss, SortedSeq(ss.Keys), repr);
    OccurrencesAppend(c, RowStart(fn), RowAll(nl, ss, SortedSeq(ss.Keys), repr));
  }

  lemma {:induction false} MdRowsBreaks<V>(names: seq<Name>, lists: seq<Namelist<V>>, fns: seq<Name>,
                                           ss: Namelist<V>, repr: V -> string)
    requires |names| == |lists|
    requires forall k :: 0 <= k < |fns| ==> fns[k] in names && '\n' !in fns[k]
    requires AllValuesFree('\n', lists, repr)
    ensures Occurrences('\n', MdRows(names, lists, fns, ss, repr)) == |fns|
    decreases |fns|
  {
    if |fns| > 0 {
      var front := fns[..|fns| - 1];
      var fn := fns[|fns| - 1];
      MdRowsBreaks(names, lists, front, ss, repr);
      MdRowCount('\n', fn, lists[IndexOf(names, fn)], ss, repr);
      OccurrencesAppend('\n', MdRows(names, lists, front, ss, repr), MdRow(fn, lists[IndexOf(names, fn)], ss, repr));
    }
  }

  lemma TableBreaks<V>(names: seq<Name>, lists: seq<Namelist<V>>, fns: seq<Name>,
                       ss: Namelist<V>, w: nat, repr: V -> string)
    requires |names| == |lists|
    requires forall k :: 0 <= k < |fns| ==> fns[k] in names && '\n' !in fns[k]
    requires AllValuesFree('\n', lists, repr)
    requires FreeNames('\n', ss)
    ensures Occurrences('\n', Table(names, lists, fns, ss, w, repr)) == 1 + |fns|
  {
    var n := MemberCount(ss, SortedSeq(ss.Keys));
    var header, sep, rows := MdHeader(ss, w), MdSeparator(n, w), MdRows(names, lists, fns, ss, repr);
    MdHeaderCount('\n', ss, w);
    MdSeparatorCount('\n', n, w);
    MdRowsBreaks(names, lists, fns, ss, repr);
    assert Occurrences('\n', header) == 0 && Occurrences('\n', sep) == 1 && Occurrences('\n', rows) == |fns|;
    OccurrencesAppend('\n', header, sep);
    OccurrencesAppend('\n', header + sep, rows);
    assert Table(names, lists, fns, ss, w, repr) == header + sep + rows;
  }

  /** A non-empty table has a header line, an alignment line and one line per file. */
  lemma MdLineCount<V>(names: seq<Name>, lists: seq<Namelist<V>>, repr: V -> string)
    requires WellFormed(names, lists)
    requires Free('\n', names, lists, repr)
    requires SupersetOf(lists) != map[]
    ensures Occurrences('\n', MdText(names, lists, repr)) == 1 + |names|
  {
    var fns := SortedSeq(KeySet(names));
    SortedKeys(names);
    SupersetFree('\n', names, lists, repr);
    TableBreaks(names, lists, fns, SupersetOf(lists), MaxLen(fns), repr);
  }

  /** The header, the alignment line and every file's row each have `n + 2`
      bars, `n` being the number of member columns: the table is rectangular. */
  lemma TableShape<V>(names: seq<Name>, lists: seq<Namelist<V>>, repr: V -> string)
    requires WellFormed(names, lists)
    requires Free('|', names, lists, repr)
    ensures var ss := SupersetOf(lists);
      var n := MemberCount(ss, SortedSeq(ss.Keys));
      var w := MaxLen(SortedSeq(KeySet(names)));
      Occurrences('|', MdHeader(ss, w)) == n + 2 &&
      Occurrences('|', MdSeparator(n, w)) == n + 2 &&
      forall k :: 0 <= k < |names| ==> Occurrences('|', MdRow(names[k], lists[k], ss, repr)) == n + 2
  {
    SupersetFree('|', names, lists, repr);
    ShapeOf(names, lists, SupersetOf(lists), MaxLen(SortedSeq(KeySet(names))), repr);
  }

  lemma ShapeOf<V>(names: seq<Name>, lists: seq<Namelist<V>>, ss: Namelist<V>, w: nat, repr: V -> string)
    requires |names| == |lists|
    requires (forall n :: n in names ==> '|' !in n) && AllValuesFree('|', lists, repr)
    requires FreeNames('|', ss)
    ensures var n := MemberCount(ss, SortedSeq(ss.Keys));
      Occurrences('|', MdHeader(ss, w)) == n + 2 &&
      Occurrences('|', MdSeparator(n, w)) == n + 2 &&
      forall k :: 0 <= k < |names| ==> Occurrences('|', MdRow(names[k], lists[k], ss, repr)) == n + 2
  {
    var n := MemberCount(ss, SortedSeq(ss.Keys));
    MdHeaderCount('|', ss, w);
    MdSeparatorCount('|', n, w);
    RowsShape(names, lists, ss, repr);
  }

  /** Every file's row has `n + 2` bars. */
  lemma RowsShape<V>(names: seq<Name>, lists: seq<Namelist<V>>, ss: Namelist<V>, repr: V -> string)
    requires |names| == |lists|
    requires (forall n :: n in names ==> '|' !in n) && AllValuesFree('|', lists, repr)
    ensures forall k :: 0 <= k < |names| ==>
      Occurrences('|', MdRow(names[k], lists[k], ss, repr)) == MemberCount(ss, SortedSeq(ss.Keys)) + 2
  {
    forall k | 0 <= k < |names|
      ensures Occurrences('|', MdRow(names[k], lists[k], ss, repr)) == MemberCount(ss, SortedSeq(ss.Keys)) + 2
    {
      MdRowCount('|', names[k], lists[k], ss, repr);
    }
  }

  /** With distinct keys the lookup of a key finds that key's own namelist. */
  lemma {:induction false} IndexOfKey(names: seq<Name>, k: nat)
    requires Distinct(names) && k < |names|
    ensures IndexOf(names, names[k]) == k
    decreases |names|
  {
    if k > 0 {
      assert names[0] != names[k];
      assert Distinct(names[1..]);
      assert names[1..][k - 1] == names[k];
      IndexOfKey(names[1..], k - 1);
    }
  }

  // ---------------------------------------------------------------------
  // Empty output

  /** Both forms are empty when no file has a group; the table is not empty otherwise. */
  lemma EmptyOutput<V>(names: seq<Name>, lists: seq<Namelist<V>>, repr: V -> string)
    requires |names| == |lists|
    ensures SupersetOf(lists) == map[] <==> forall i :: 0 <= i < |lists| ==> lists[i] == map[]
    ensures SupersetOf(lists) == map[] ==> MdText(names, lists, repr) == "" && PlainText(names, lists, repr) == ""
    ensures SupersetOf(lists) != map[] ==> MdText(names, lists, repr) != ""
  {
    var ss := SupersetOf(lists);
    SupersetKeys(lists);
    if forall i :: 0 <= i < |lists| ==> lists[i] == map[] {
      assert AllGroups(lists) == {};
      assert SortedSeq(ss.Keys) == [];
    } else {
      var i :| 0 <= i < |lists| && lists[i] != map[];
      var g :| g in lists[i];
      assert g in AllGroups(lists);
      var fns := SortedSeq(KeySet(names));
      SortedKeys(names);
      var w := MaxLen(fns);
      assert MdText(names, lists, repr) == Table(names, lists, fns, ss, w, repr);
      assert Table(names, lists, fns, ss, w, repr)[0] == '|';
    }
  }
}
