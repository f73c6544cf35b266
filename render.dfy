/**
  `strnmldict`: the text form of a collection of namelists, either a plain
  listing (one block per group member, one line per file) or a Markdown
  table (one column per group member, one row per file). Groups, members
  and files appear in sorted order; a member a file lacks is shown blank.
  The text of a value is `repr`, given as a parameter.
*/
module Render {
  import opened Namelists
  import opened LexOrder
  import opened Text

  /** `repr` of member `m` of group `g` in namelist `nl`, or nothing when the file lacks it. */
  function Cell<V>(nl: Namelist<V>, g: Name, m: Name, repr: V -> string): (r: string)
    ensures g in nl && m in nl[g] ==> r == repr(nl[g][m])
    ensures !(g in nl && m in nl[g]) ==> r == ""
  {
    if g in nl && m in nl[g] then repr(nl[g][m]) else ""
  }

  /** The keys of the dict as a set. */
  function KeySet(names: seq<Name>): set<Name>
  {
    set n | n in names
  }

  /** Where key `x` sits among the keys: `nmlall[x]` is `lists[IndexOf(names, x)]`. */
  function IndexOf(names: seq<Name>, x: Name): (k: nat)
    requires x in names
    ensures k < |names| && names[k] == x
  {
    if names[0] == x then 0 else 1 + IndexOf(names[1..], x)
  }

  /** Appending piece by piece is appending the pieces joined. */
  lemma AppendAssoc(a: string, b: string, c: string)
    ensures (a + b) + c == a + (b + c)
  {
  }

  // ---------------------------------------------------------------------
  // The plain listing

  /** The line of one file: its key padded to `w`, " : ", then the cell. */
  function FileLine(fn: Name, w: nat, cell: string): (r: string)
    ensures |r| == (if |fn| < w then w else |fn|) + 3 + |cell| + 1
    ensures r[..|fn|] == fn && r[|r| - 1] == '\n'
  {
    LJust(fn, w) + " : " + cell + "\n"
  }

  /** The two heading lines of member `m` of group `g`, indented past the file column. */
  function Heading(g: Name, m: Name, w: nat): (r: string)
    ensures |r| == 2 * (w + 2) + |g| + |m| + 4
    ensures r[0] == ' ' && r[|r| - 1] == '\n'
  {
    Repeat(' ', w + 2) + "&" + g + "\n" + Repeat(' ', w + 2) + " " + m + "\n"
  }

  /** Distinct keys: as many file names as files. */
  lemma {:induction false} DistinctKeySet(names: seq<Name>)
    requires Distinct(names)
    ensures |KeySet(names)| == |names|
    decreases |names|
  {
    if |names| > 0 {
      var front := names[..|names| - 1];
      var last := names[|names| - 1];
      assert Distinct(front);
      DistinctKeySet(front);
      assert KeySet(names) == KeySet(front) + {last};
      assert last !in KeySet(front);
    }
  }

  /** The keys of the dict in sorted order: each a key of the dict and, the
      keys being distinct, one per file. */
  lemma SortedKeys(names: seq<Name>)
    ensures forall k :: 0 <= k < |SortedSeq(KeySet(names))| ==> SortedSeq(KeySet(names))[k] in names
    ensures Distinct(names) ==> |SortedSeq(KeySet(names))| == |names|
  {
    SortedSeqSpec(KeySet(names));
    if Distinct(names) {
      DistinctKeySet(names);
    }
  }

  /** One line per file of `fns`. */
  function FileLines<V>(names: seq<Name>, lists: seq<Namelist<V>>, fns: seq<Name>,
                        g: Name, m: Name, w: nat, repr: V -> string): string
    requires |names| == |lists|
    requires forall k :: 0 <= k < |fns| ==> fns[k] in names
  {
    if |fns| == 0 then ""
    else
      var fn := fns[|fns| - 1];
      FileLines(names, lists, fns[..|fns| - 1], g, m, w, repr)
        + FileLine(fn, w, Cell(lists[IndexOf(names, fn)], g, m, repr))
  }

  /** The block of member `m` of group `g`: two indented heading lines, then the file lines. */
  function MemberBlock<V>(names: seq<Name>, lists: seq<Namelist<V>>, fns: seq<Name>,
                          g: Name, m: Name, w: nat, repr: V -> string): string
    requires |names| == |lists|
    requires forall k :: 0 <= k < |fns| ==> fns[k] in names
  {
    Heading(g, m, w) + FileLines(names, lists, fns, g, m, w, repr)
  }

  /** The blocks of the members `mems` of group `g`, in that order. */
  function GroupBlocks<V>(names: seq<Name>, lists: seq<Namelist<V>>, fns: seq<Name>,
                          g: Name, mems: seq<Name>, w: nat, repr: V -> string): string
    requires |names| == |lists|
    requires forall k :: 0 <= k < |fns| ==> fns[k] in names
  {
    if |mems| == 0 then ""
    else
      GroupBlocks(names, lists, fns, g, mems[..|mems| - 1], w, repr)
        + MemberBlock(names, lists, fns, g, mems[|mems| - 1], w, repr)
  }

  /** The blocks of every member of the groups `groups` of the superset `ss`, members sorted. */
  ghost function PlainBlocks<V>(names: seq<Name>, lists: seq<Namelist<V>>, fns: seq<Name>,
                                ss: Namelist<V>, groups: seq<Name>, w: nat, repr: V -> string): string
    requires |names| == |lists|
    requires forall k :: 0 <= k < |fns| ==> fns[k] in names
  {
    if |groups| == 0 then ""
    else
      var g := groups[|groups| - 1];
      PlainBlocks(names, lists, fns, ss, groups[..|groups| - 1], w, repr)
        + (if g in ss then GroupBlocks(names, lists, fns, g, SortedSeq(ss[g].Keys), w, repr) else "")
  }

  /** The plain form of the collection. */
  ghost function PlainText<V>(names: seq<Name>, lists: seq<Namelist<V>>, repr: V -> string): string
    requires |names| == |lists|
  {
    var fns := SortedSeq(KeySet(names));
    SortedKeys(names);
    var ss := SupersetOf(lists);
    PlainBlocks(names, lists, fns, ss, SortedSeq(ss.Keys), MaxLen(fns), repr)
  }

  // ---------------------------------------------------------------------
  // The Markdown table

  /** The header cell of member `m` of group `g`. */
  function HeaderCell(g: Name, m: Name): (r: string)
    ensures |r| == |g| + |m| + 8
    ensures r[0] == '&' && r[|r| - 3..] == " | "
  {
    "&" + g + "<br>" + m + " | "
  }

  /** The header cells of the members `mems` of group `g`. */
  function HeaderCells(g: Name, mems: seq<Name>): string
  {
    if |mems| == 0 then ""
    else HeaderCells(g, mems[..|mems| - 1]) + HeaderCell(g, mems[|mems| - 1])
  }

  /** The header cells of every member of the groups `groups` of `ss`, members sorted. */
  ghost function HeaderAll<V>(ss: Namelist<V>, groups: seq<Name>): string
  {
    if |groups| == 0 then ""
    else
      var g := groups[|groups| - 1];
      HeaderAll(ss, groups[..|groups| - 1]) + (if g in ss then HeaderCells(g, SortedSeq(ss[g].Keys)) else "")
  }

  /** The number of member columns. */
  ghost function MemberCount<V>(ss: Namelist<V>, groups: seq<Name>): nat
  {
    if |groups| == 0 then 0
    else
      var g := groups[|groups| - 1];
      MemberCount(ss, groups[..|groups| - 1]) + (if g in ss then |SortedSeq(ss[g].Keys)| else 0)
  }

  /** A body cell. */
  function RowCell(cell: string): (r: string)
    ensures |r| == |cell| + 3 && r[..|cell|] == cell && r[|cell|..] == " | "
  {
    cell + " | "
  }

  /** The cells of one file's row for the members `mems` of group `g`. */
  function RowCells<V>(nl: Namelist<V>, g: Name, mems: seq<Name>, repr: V -> string): string
  {
    if |mems| == 0 then ""
    else RowCells(nl, g, mems[..|mems| - 1], repr) + RowCell(Cell(nl, g, mems[|mems| - 1], repr))
  }

  /** The cells of one file's row for every member of the groups `groups` of `ss`, members sorted. */
  ghost function RowAll<V>(nl: Namelist<V>, ss: Namelist<V>, groups: seq<Name>, repr: V -> string): string
  {
    if |groups| == 0 then ""
    else
      var g := groups[|groups| - 1];
      RowAll(nl, ss, groups[..|groups| - 1], repr) + (if g in ss then RowCells(nl, g, SortedSeq(ss[g].Keys), repr) else "")
  }

  /** The start of the row of the file with key `fn`: a line break and the unpadded key. */
  function RowStart(fn: Name): (r: string)
    ensures |r| == |fn| + 6
    ensures r[0] == '\n' && r[3..3 + |fn|] == fn
  {
    "\n| " + fn + " | "
  }

  /** The row of the file with key `fn` and namelist `nl`. */
  ghost function MdRow<V>(fn: Name, nl: Namelist<V>, ss: Namelist<V>, repr: V -> string): string
  {
    RowStart(fn) + RowAll(nl, ss, SortedSeq(ss.Keys), repr)
  }

  /** The rows of the files `fns`, in that order. */
  ghost function MdRows<V>(names: seq<Name>, lists: seq<Namelist<V>>, fns: seq<Name>,
                           ss: Namelist<V>, repr: V -> string): string
    requires |names| == |lists|
    requires forall k :: 0 <= k < |fns| ==> fns[k] in names
  {
    if |fns| == 0 then ""
    else
      var fn := fns[|fns| - 1];
      MdRows(names, lists, fns[..|fns| - 1], ss, repr) + MdRow(fn, lists[IndexOf(names, fn)], ss, repr)
  }

  /** The start of the header line: the file column's title padded to `w`. */
  function HeaderStart(w: nat): (r: string)
    ensures |r| == (if 4 < w then w else 4) + 5
    ensures r[..6] == "| File" && r[|r| - 3..] == " | "
  {
    "| " + LJust("File", w) + " | "
  }

  /** The header line. */
  ghost function MdHeader<V>(ss: Namelist<V>, w: nat): string
  {
    HeaderStart(w) + HeaderAll(ss, SortedSeq(ss.Keys))
  }

  /** The alignment line: the file column, then `n` right-aligned member columns. */
  function MdSeparator(n: nat, w: nat): (r: string)
    ensures |r| == w + 5 + 4 * n
    ensures r[0] == '\n' && forall i :: 3 <= i < w + 3 ==> r[i] == '-'
  {
    "\n|-" + Repeat('-', w) + ":|" + RepeatString("--:|", n)
  }

  /** Header, alignment line and rows. */
  ghost function Table<V>(names: seq<Name>, lists: seq<Namelist<V>>, fns: seq<Name>,
                          ss: Namelist<V>, w: nat, repr: V -> string): string
    requires |names| == |lists|
    requires forall k :: 0 <= k < |fns| ==> fns[k] in names
  {
    MdHeader(ss, w) + MdSeparator(MemberCount(ss, SortedSeq(ss.Keys)), w) + MdRows(names, lists, fns, ss, repr)
  }

  /** The Markdown form of the collection: nothing at all when there is no group. */
  ghost function MdText<V>(names: seq<Name>, lists: seq<Namelist<V>>, repr: V -> string): string
    requires |names| == |lists|
  {
    var fns := SortedSeq(KeySet(names));
    SortedKeys(names);
    var ss := SupersetOf(lists);
    if |ss| == 0 then "" else Table(names, lists, fns, ss, MaxLen(fns), repr)
  }

  // ---------------------------------------------------------------------
  // The operation

  /** `strnmldict(nmlall, format)`. */
  method Render<V>(names: seq<Name>, lists: seq<Namelist<V>>, format: string, repr: V -> string)
    returns (st: string)
    requires WellFormed(names, lists)
    ensures st == if IsMarkdown(format) then MdText(names, lists, repr) else PlainText(names, lists, repr)
  {
    var ss := Superset(lists);
    var fnames := SortNames(KeySet(names));
    SortedKeys(names);
    var colwidth := MaxLen(fnames);
    st := "";
    if IsMarkdown(format) {
      if |ss| > 0 {
        st := AppendTable(st, names, lists, fnames, ss, colwidth, repr);
      }
    } else {
      var groups := SortNames(ss.Keys);
      st := AppendPlain(st, names, lists, fnames, ss, groups, colwidth, repr);
    }
  }

  /** The plain loops over the groups `groups`. */
  method AppendPlain<V>(st0: string, names: seq<Name>, lists: seq<Namelist<V>>, fnames: seq<Name>,
                        ss: Namelist<V>, groups: seq<Name>, w: nat, repr: V -> string) returns (st: string)
    requires |names| == |lists|
    requires forall k :: 0 <= k < |fnames| ==> fnames[k] in names
    ensures st == st0 + PlainBlocks(names, lists, fnames, ss, groups, w, repr)
  {
    st := st0;
    for i := 0 to |groups|
      invariant st == st0 + PlainBlocks(names, lists, fnames, ss, groups[..i], w, repr)
    {
      assert groups[..i + 1][..i] == groups[..i];
      var g := groups[i];
      ghost var done := PlainBlocks(names, lists, fnames, ss, groups[..i], w, repr);
      if g in ss {
        var mems := SortNames(ss[g].Keys);
        AppendAssoc(st0, done, GroupBlocks(names, lists, fnames, g, mems, w, repr));
        st := AppendGroupPlain(st, names, lists, fnames, g, mems, w, repr);
      } else {
        assert done + "" == done;
      }
    }
    assert groups[..|groups|] == groups;
  }

  /** The plain loop over the members `mems` of group `g`. */
  method AppendGroupPlain<V>(st0: string, names: seq<Name>, lists: seq<Namelist<V>>, fnames: seq<Name>,
                             g: Name, mems: seq<Name>, w: nat, repr: V -> string) returns (st: string)
    requires |names| == |lists|
    requires forall k :: 0 <= k < |fnames| ==> fnames[k] in names
    ensures st == st0 + GroupBlocks(names, lists, fnames, g, mems, w, repr)
  {
    st := st0;
    for i := 0 to |mems|
      invariant st == st0 + GroupBlocks(names, lists, fnames, g, mems[..i], w, repr)
    {
      assert mems[..i + 1][..i] == mems[..i];
      var m := mems[i];
      ghost var done := GroupBlocks(names, lists, fnames, g, mems[..i], w, repr);
      ghost var lines := FileLines(names, lists, fnames, g, m, w, repr);
      AppendAssoc(st0 + done, Heading(g, m, w), lines);
      AppendAssoc(st0, done, Heading(g, m, w) + lines);
      st := st + Heading(g, m, w);
      st := AppendFileLines(st, names, lists, fnames, g, m, w, repr);
    }
    assert mems[..|mems|] == mems;
  }

  /** The plain loop over the files, for member `m` of group `g`. */
  method AppendFileLines<V>(st0: string, names: seq<Name>, lists: seq<Namelist<V>>, fnames: seq<Name>,
                            g: Name, m: Name, w: nat, repr: V -> string) returns (st: string)
    requires |names| == |lists|
    requires forall k :: 0 <= k < |fnames| ==> fnames[k] in names
    ensures st == st0 + FileLines(names, lists, fnames, g, m, w, repr)
  {
    st := st0;
    for i := 0 to |fnames|
      invariant st == st0 + FileLines(names, lists, fnames[..i], g, m, w, repr)
    {
      assert fnames[..i + 1][..i] == fnames[..i];
      var fn := fnames[i];
      var nl := lists[IndexOf(names, fn)];
      var cell := "";
      if g in nl {
        if m in nl[g] {
          cell := repr(nl[g][m]);
        }
      }
      AppendAssoc(st0, FileLines(names, lists, fnames[..i], g, m, w, repr), FileLine(fn, w, cell));
      st := st + FileLine(fn, w, cell);
    }
    assert fnames[..|fnames|] == fnames;
  }

  /** The Markdown branch for a non-empty superset: header, alignment line, rows. */
  method AppendTable<V>(st0: string, names: seq<Name>, lists: seq<Namelist<V>>, fnames: seq<Name>,
                        ss: Namelist<V>, w: nat, repr: V -> string) returns (st: string)
    requires |names| == |lists|
    requires forall k :: 0 <= k < |fnames| ==> fnames[k] in names
    ensures st == st0 + Table(names, lists, fnames, ss, w, repr)
  {
    var groups := SortNames(ss.Keys);
    ghost var header := HeaderAll(ss, groups);
    ghost var rows := MdRows(names, lists, fnames, ss, repr);
    st := st0 + HeaderStart(w);
    var nmem;
    st, nmem := AppendHeader(st, ss, groups);
    AppendAssoc(st0, HeaderStart(w), header);
    ghost var sep := MdSeparator(nmem, w);
    st := st + MdSeparator(nmem, w);
    AppendAssoc(st0, MdHeader(ss, w), sep);
    st := AppendRows(st, names, lists, fnames, ss, repr);
    AppendAssoc(st0, MdHeader(ss, w) + sep, rows);
  }

  /** The header loops over the groups `groups`, counting the member columns. */
  method AppendHeader<V>(st0: string, ss: Namelist<V>, groups: seq<Name>) returns (st: string, nmem: nat)
    ensures st == st0 + HeaderAll(ss, groups)
    ensures nmem == MemberCount(ss, groups)
  {
    st, nmem := st0, 0;
    for i := 0 to |groups|
      invariant st == st0 + HeaderAll(ss, groups[..i])
      invariant nmem == MemberCount(ss, groups[..i])
    {
      assert groups[..i + 1][..i] == groups[..i];
      var g := groups[i];
      ghost var done := HeaderAll(ss, groups[..i]);
      if g in ss {
        var mems := SortNames(ss[g].Keys);
        AppendAssoc(st0, done, HeaderCells(g, mems));
        st, nmem := AppendGroupHeader(st, nmem, g, mems);
      } else {
        assert done + "" == done;
      }
    }
    assert groups[..|groups|] == groups;
  }

  /** The header loop over the members `mems` of group `g`, counting them. */
  method AppendGroupHeader(st0: string, nmem0: nat, g: Name, mems: seq<Name>) returns (st: string, nmem: nat)
    ensures st == st0 + HeaderCells(g, mems)
    ensures nmem == nmem0 + |mems|
  {
    st, nmem := st0, nmem0;
    for i := 0 to |mems|
      invariant st == st0 + HeaderCells(g, mems[..i])
      invariant nmem == nmem0 + i
    {
      assert mems[..i + 1][..i] == mems[..i];
      AppendAssoc(st0, HeaderCells(g, mems[..i]), HeaderCell(g, mems[i]));
      st := st + HeaderCell(g, mems[i]);
      nmem := nmem + 1;
    }
    assert mems[..|mems|] == mems;
  }

  /** The loop over the files writing the table's rows. */
  method AppendRows<V>(st0: string, names: seq<Name>, lists: seq<Namelist<V>>, fnames: seq<Name>,
                       ss: Namelist<V>, repr: V -> string) returns (st: string)
    requires |names| == |lists|
    requires forall k :: 0 <= k < |fnames| ==> fnames[k] in names
    ensures st == st0 + MdRows(names, lists, fnames, ss, repr)
  {
    st := st0;
    for i := 0 to |fnames|
      invariant st == st0 + MdRows(names, lists, fnames[..i], ss, repr)
    {
      assert fnames[..i + 1][..i] == fnames[..i];
      var fn := fnames[i];
      var nl := lists[IndexOf(names, fn)];
      ghost var done := MdRows(names, lists, fnames[..i], ss, repr);
      ghost var cells := RowAll(nl, ss, SortedSeq(ss.Keys), repr);
      AppendAssoc(st0 + done, RowStart(fn), cells);
      AppendAssoc(st0, done, RowStart(fn) + cells);
      st := st + RowStart(fn);
      var groups := SortNames(ss.Keys);
      st := AppendRowCells(st, nl, ss, groups, repr);
    }
    assert fnames[..|fnames|] == fnames;
  }

  /** One row's loops over the groups `groups`. */
  method AppendRowCells<V>(st0: string, nl: Namelist<V>, ss: Namelist<V>, groups: seq<Name>, repr: V -> string)
    returns (st: string)
    ensures st == st0 + RowAll(nl, ss, groups, repr)
  {
    st := st0;
    for i := 0 to |groups|
      invariant st == st0 + RowAll(nl, ss, groups[..i], repr)
    {
      assert groups[..i + 1][..i] == groups[..i];
      var g := groups[i];
      ghost var done := RowAll(nl, ss, groups[..i], repr);
      if g in ss {
        var mems := SortNames(ss[g].Keys);
        AppendAssoc(st0, done, RowCells(nl, g, mems, repr));
        st := AppendGroupRowCells(st, nl, g, mems, repr);
      } else {
        assert done + "" == done;
      }
    }
    assert groups[..|groups|] == groups;
  }

  /** One row's loop over the members `mems` of group `g`. */
  method AppendGroupRowCells<V>(st0: string, nl: Namelist<V>, g: Name, mems: seq<Name>, repr: V -> string)
    returns (st: string)
    ensures st == st0 + RowCells(nl, g, mems, repr)
  {
    st := st0;
    for i := 0 to |mems|
      invariant st == st0 + RowCells(nl, g, mems[..i], repr)
    {
      assert mems[..i + 1][..i] == mems[..i];
      var m := mems[i];
      var cell := "";
      if g in nl {
        if m in nl[g] {
          cell := repr(nl[g][m]);
        }
      }
      AppendAssoc(st0, RowCells(nl, g, mems[..i], repr), RowCell(cell));
      st := st + RowCell(cell);
    }
    assert mems[..|mems|] == mems;
  }
}
