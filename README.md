# Namelist diff engine

A Dafny model of the namelist diff engine of the COSIMA cookbook
(`cosima_cookbook/summary/nml_diff.py`). The engine compares a
collection of parsed Fortran namelist files, given as a dict from a file
key to the file's namelist (group name -> member name -> value), with
three operations:

- `superset` merges every file into one namelist. It holds every group and
  every member found in any file. A member's value comes from the last
  file in the dict's iteration order that defines it. The group objects
  are copied first, so the inputs are not changed.
- `nmldiff` changes the collection in place. It first deletes every member
  that every file has, with the same value, in a group every file has.
  It then deletes every such group that is now empty in every file.
- `strnmldict` renders a collection as text. The plain form has one block
  per group member, with two heading lines and one line per file. The
  Markdown form has one table column per group member and one row per
  file. Groups, members and file keys are each sorted, and an absent
  entry is blank.

Files:

- `superset.dfy` (module `Namelists`): the data model and `superset`.
  The dict is two parallel sequences in iteration order: `names` holds the
  keys, all distinct, and `lists` holds the namelists. Values have any
  type `V` with equality. The specification `SupersetOf` is proved
  against the source's two loops.
- `diff.dfy` (module `Diff`): `nmldiff`. `DiffOf` is a specification that
  states, file by file, what survives. The class `Collection` holds the
  caller's dict: a constant key sequence and a namelist sequence that the
  methods reassign. `Collection.Diff` runs the source's nested loops and
  ends in `lists == DiffOf(old(lists))`. The lemmas about `DiffOf` state
  the deletion rules, that non-common groups are untouched, idempotence,
  and that the winner of the superset does not matter.
- `lexorder.dfy` (module `LexOrder`): Python's ordering of strings and
  `sorted()`. Sorting is a selection-sort method proved equal to the
  unique strictly ascending listing `SortedSeq`.
- `text.dfy` (module `Text`): the string operations the renderer uses
  (`*`, `ljust`, `max(len(..))`, `lower`), plus character counting.
- `render.dfy` (module `Render`): `strnmldict`. `PlainText` and `MdText`
  are the output as functions of the collection, and the method `Render`
  appends to `st` in the source's loops.
- `layout.dfy` (module `Layout`): what the output looks like. It covers
  line counts, column positions, the same number of cells on every table
  line, and empty output.
- `order.dfy` (module `Order`): the summary depends on the dict only.
  Listing the same files in another order gives the same diff for each
  key and the same text.

The value text is the parameter `repr: V -> string`.

Two facts about the text layout:

- In the plain form the file key is padded on the right to the longest
  key with `str.ljust` (`nml_diff.py:193`), so keys are left-aligned.
- In the Markdown form only the `File` heading and the alignment line
  are padded to the longest key (`nml_diff.py:172`, `178`). Each row holds
  the key unpadded (`nml_diff.py:180`).

## Model

| member | source | states |
|---|---|---|
| Namelists.OverlayKeys | cosima_cookbook/summary/nml_diff.py:62-65 | after the first loop (`update` with each whole namelist) the groups are exactly the groups of all files |
| Namelists.GroupUnionMembers | cosima_cookbook/summary/nml_diff.py:69-71 | merging group `g` of every file gives exactly the members found in `g` in any file |
| Namelists.GroupUnionLastWins | cosima_cookbook/summary/nml_diff.py:69-71 | in the merged group a member's value is the one from the last file defining it |
| Namelists.OverlayAbsorbed | cosima_cookbook/summary/nml_diff.py:64-71 | the group object left by the first loop, copied and then updated with `g` of every file, ends up as the merge of `g` over the files: its starting content is overwritten |
| Namelists.SupersetKeys | cosima_cookbook/summary/nml_diff.py:62-72 | the superset's groups are the union of all files' groups; each group's members are the union of that group's members over the files holding it |
| Namelists.SupersetCovers | cosima_cookbook/summary/nml_diff.py:62-72 | every group and member of every file is in the superset |
| Namelists.SupersetLastWins | cosima_cookbook/summary/nml_diff.py:66-71 | each superset value is the one from the last file, in iteration order, that defines that member |
| Namelists.Superset | cosima_cookbook/summary/nml_diff.py:62-73 | `superset` returns `SupersetOf(lists)`, the specification the lemmas above describe; its input is a value and stays as it was |
| Namelists.UpdateWithNamelists | cosima_cookbook/summary/nml_diff.py:62-64 | the first loop yields the overlay of all namelists, later files replacing whole groups |
| Namelists.CopyAndUpdateGroups | cosima_cookbook/summary/nml_diff.py:66-71 | the second loop keeps the group set and replaces each group by its merge over the files |
| Namelists.UpdateGroup | cosima_cookbook/summary/nml_diff.py:68-71 | the innermost loop yields the copied group updated with group `g` of every file, in order |
| Diff.DiffMembers | cosima_cookbook/summary/nml_diff.py:108-129 | after `nmldiff`, a member of a surviving group is gone iff the group was in every file and the member was in it in every file with equal values; a kept member keeps its value; nothing is added |
| Diff.DiffGroups | cosima_cookbook/summary/nml_diff.py:108-135 | a group survives in a file iff the file had it and it is not a common group whose members were all agreed |
| Diff.DiffNonCommonUntouched | cosima_cookbook/summary/nml_diff.py:110-113 | a group absent from some file is left exactly as it was in every file |
| Diff.DroppedIffEmptied | cosima_cookbook/summary/nml_diff.py:130-135 | a common group is deleted iff the member pass leaves it empty in every file |
| Diff.AgreedAfterDiff | cosima_cookbook/summary/nml_diff.py:108-136 | a member agreed by every file after the diff was agreed before it |
| Diff.NothingLeftToRemove | cosima_cookbook/summary/nml_diff.py:108-136 | after the diff no surviving group is deletable and no member is agreed by every file |
| Diff.DiffIdempotent | cosima_cookbook/summary/nml_diff.py:108-136 | applying the diff to its own result changes nothing |
| Diff.AgreedIffMatchesSuperset | cosima_cookbook/summary/nml_diff.py:121-126 | comparing every file's value with the superset's value, as the source does, holds iff all files agree, so which file wins in the superset does not matter |
| Diff.SameGroupSameVerdict | cosima_cookbook/summary/nml_diff.py:108-135 | every decision about group `g` depends on group `g` of the files alone |
| Diff.GroupUnionSameGroup | cosima_cookbook/summary/nml_diff.py:66-71 | the superset's entry for `g` depends on group `g` of the files alone |
| Diff.SupersetEntryUnchanged | cosima_cookbook/summary/nml_diff.py:102-108 | the superset computed before the loop still describes every group the loop has not yet reached |
| Diff.DiffedUpToNone | cosima_cookbook/summary/nml_diff.py:108 | before the group loop no group has been processed |
| Diff.DiffedUpToStep | cosima_cookbook/summary/nml_diff.py:108-135 | processing one more group extends the partial diff by that group |
| Diff.DiffedUpToAll | cosima_cookbook/summary/nml_diff.py:108-136 | once every superset group has been processed the collection is the full diff |
| Diff.FileDone | cosima_cookbook/summary/nml_diff.py:108-136 | a file whose groups have all been processed is that file's diff |
| Diff.MemberVerdict | cosima_cookbook/summary/nml_diff.py:114-126 | during the member loop the two scans for a member not yet visited see the original presence and values |
| Diff.MemberPassDone | cosima_cookbook/summary/nml_diff.py:114-129 | after visiting every member of the superset's group each file holds the group minus the agreed members |
| Diff.MembersStrippedStep | cosima_cookbook/summary/nml_diff.py:127-129 | deleting an agreed member from every file, or nothing for another, extends the member pass |
| Diff.CommonGroupProcessed | cosima_cookbook/summary/nml_diff.py:113-135 | the member pass, the emptiness scan and the group deletion together process a common group as the diff prescribes |
| Diff.NonCommonGroupProcessed | cosima_cookbook/summary/nml_diff.py:110-113 | leaving a non-common group alone is what the diff prescribes for it |
| Diff.InEveryFile | cosima_cookbook/summary/nml_diff.py:110-112 | `deletegroup` after the presence scan is true iff every file has the group |
| Diff.InEveryGroup | cosima_cookbook/summary/nml_diff.py:117-120 | `deletemem` after the presence scan is true iff every file's group has the member |
| Diff.AllEqualTo | cosima_cookbook/summary/nml_diff.py:121-126 | `deletemem` after the value scan is true iff every file's value equals the superset's |
| Diff.AllEmpty | cosima_cookbook/summary/nml_diff.py:130-131 | `deletegroup` after the emptiness scan is true iff the group is empty in every file |
| Diff.Collection.Diff | cosima_cookbook/summary/nml_diff.py:76-136 | `nmldiff` leaves the keys as they were and turns the namelists into `DiffOf` of the old ones |
| Diff.Collection.DiffGroup | cosima_cookbook/summary/nml_diff.py:108-135 | one pass of the group loop processes group `g` and changes no other group |
| Diff.Collection.StripAgreedMembers | cosima_cookbook/summary/nml_diff.py:114-129 | the member loop deletes exactly the agreed members of the common group and changes nothing else |
| Diff.Collection.RemoveMember | cosima_cookbook/summary/nml_diff.py:127-129 | the member is deleted from the group in every file, and nothing else changes |
| Diff.Collection.RemoveGroup | cosima_cookbook/summary/nml_diff.py:132-135 | the group is deleted from every file, and nothing else changes |
| LexOrder.LessIrreflexive | cosima_cookbook/summary/nml_diff.py:164 | no string sorts before itself |
| LexOrder.LessAsymmetric | cosima_cookbook/summary/nml_diff.py:164 | two strings never sort before each other |
| LexOrder.LessTransitive | cosima_cookbook/summary/nml_diff.py:164 | the string order is transitive |
| LexOrder.LessTotal | cosima_cookbook/summary/nml_diff.py:164 | of two different strings one sorts first |
| LexOrder.LeastExists | cosima_cookbook/summary/nml_diff.py:174 | a non-empty set of names has a least element |
| LexOrder.LeastUnique | cosima_cookbook/summary/nml_diff.py:174 | the least element is unique |
| LexOrder.Least | cosima_cookbook/summary/nml_diff.py:174 | picks the least element |
| LexOrder.SortedSeqSpec | cosima_cookbook/summary/nml_diff.py:163-164 | the sorted listing is strictly ascending and lists each element of the set exactly once |
| LexOrder.SortedSeqUnique | cosima_cookbook/summary/nml_diff.py:163-164 | any strictly ascending listing of the set is the sorted listing |
| LexOrder.LeastOf | cosima_cookbook/summary/nml_diff.py:174 | a scan of the set finds its least element |
| LexOrder.SortNames | cosima_cookbook/summary/nml_diff.py:163-164 | `sorted` / `list.sort` of distinct names yields the sorted listing |
| Text.Repeat | cosima_cookbook/summary/nml_diff.py:190 | `c * n` has length `n` and holds only `c` |
| Text.LJust | cosima_cookbook/summary/nml_diff.py:193 | `ljust` keeps the string as its prefix, pads with blanks to the width and never truncates |
| Text.MaxLen | cosima_cookbook/summary/nml_diff.py:165 | the width is at least every key's length, equals some key's length, and is 0 when there is no key |
| Text.Lower | cosima_cookbook/summary/nml_diff.py:170 | lower-casing keeps the length and maps each character on its own |
| Text.LowerChar | cosima_cookbook/summary/nml_diff.py:170 | `str.lower` of one character gives an ASCII lower-case letter exactly for ASCII letters and the Kelvin sign, and leaves lower-case letters alone |
| Text.IsMarkdown | cosima_cookbook/summary/nml_diff.py:170 | `format.lower() in ('md', 'markdown')`; a selecting format has 2 or 8 characters |
| Text.LowerCharIsLetter | cosima_cookbook/summary/nml_diff.py:170 | a character lower-cases to an ASCII letter iff it is that letter in either case (or the Kelvin sign for `k`) |
| Text.MarkdownSelector | cosima_cookbook/summary/nml_diff.py:170 | the Markdown form is chosen iff the format spells `md` or `markdown` in any mix of cases |
| Text.RepeatString | cosima_cookbook/summary/nml_diff.py:178 | `s * n` has `n` times the length of `s` |
| Render.IndexOf | cosima_cookbook/summary/nml_diff.py:183 | `nmlall[fn]` for a key of the dict finds a position holding that key |
| Render.Cell | cosima_cookbook/summary/nml_diff.py:183-185 | the text of a file's entry: `repr` of its value when the file has the group and the member, otherwise `''` (also lines 194-196) |
| Render.FileLine | cosima_cookbook/summary/nml_diff.py:193-197 | the plain form's file line: the key padded to the width, ` : `, the entry, a line break; its length and its start and end |
| Render.Heading | cosima_cookbook/summary/nml_diff.py:190-191 | the two heading lines `&group` and ` member`, each indented by width + 2 blanks; its length, start and end |
| Render.HeaderStart | cosima_cookbook/summary/nml_diff.py:172 | the header line's start `\| File \| `, `File` padded to the width; its length and ends |
| Render.HeaderCell | cosima_cookbook/summary/nml_diff.py:176 | the header cell `&group<br>member \| `; its length and ends |
| Render.MdSeparator | cosima_cookbook/summary/nml_diff.py:178 | the alignment line: a line break, `\|-`, width dashes, `:\|`, then `--:\|` per member column; its length, the line break and the dashes |
| Render.RowStart | cosima_cookbook/summary/nml_diff.py:180 | a row's start: a line break, `\| `, the unpadded key, ` \| `; its length and where the key sits |
| Render.RowCell | cosima_cookbook/summary/nml_diff.py:186 | a body cell: the entry followed by ` \| ` |
| Render.DistinctKeySet | cosima_cookbook/summary/nml_diff.py:163 | distinct keys: the dict has as many keys as files |
| Render.SortedKeys | cosima_cookbook/summary/nml_diff.py:163-164 | every sorted file key is a key of the dict, and with distinct keys there is one sorted key per file |
| Render.Render | cosima_cookbook/summary/nml_diff.py:162-198 | `strnmldict` returns `MdText` when the format selects Markdown and `PlainText` otherwise |
| Render.AppendPlain | cosima_cookbook/summary/nml_diff.py:188-197 | the plain loop over the sorted groups appends one block per group, its members sorted |
| Render.AppendGroupPlain | cosima_cookbook/summary/nml_diff.py:189-197 | the loop over a group's members appends two heading lines and the file lines per member |
| Render.AppendFileLines | cosima_cookbook/summary/nml_diff.py:192-197 | the loop over the sorted keys appends one line per file: padded key, ` : `, the value text or nothing |
| Render.AppendTable | cosima_cookbook/summary/nml_diff.py:171-186 | a non-empty superset gives the header line, the alignment line and the rows |
| Render.AppendHeader | cosima_cookbook/summary/nml_diff.py:173-177 | the header loop appends a `&group<br>member` cell per member and counts the member columns |
| Render.AppendGroupHeader | cosima_cookbook/summary/nml_diff.py:175-177 | the header loop over one group's members appends one cell and adds one to the count per member |
| Render.AppendRows | cosima_cookbook/summary/nml_diff.py:179-186 | one row per sorted file key: a line break, the key, then the cells |
| Render.AppendRowCells | cosima_cookbook/summary/nml_diff.py:181-186 | one row's loop over the sorted groups appends the cells of every member |
| Render.AppendGroupRowCells | cosima_cookbook/summary/nml_diff.py:182-186 | one cell per member: the value text, or blank when the file lacks group or member, then ` \| ` |
| Layout.FileLineBreaks | cosima_cookbook/summary/nml_diff.py:193-197 | a file line holds exactly one line break |
| Layout.FileLineLayout | cosima_cookbook/summary/nml_diff.py:193-197 | a file line is the key padded with blanks to the width, ` : ` from column `w`, the value from column `w + 3`, and a line break |
| Layout.HeadingLayout | cosima_cookbook/summary/nml_diff.py:190-191 | the heading lines indent `&group` and the member name so that the member name starts in the column of the values below it |
| Layout.HeadingBreaks | cosima_cookbook/summary/nml_diff.py:190-191 | a heading is exactly two lines |
| Layout.FileLinesBreaks | cosima_cookbook/summary/nml_diff.py:192-197 | one line per file |
| Layout.MemberBlockBreaks | cosima_cookbook/summary/nml_diff.py:189-197 | a member block is 2 + (number of files) lines |
| Layout.GroupBlocksBreaks | cosima_cookbook/summary/nml_diff.py:189-197 | a group's blocks have 2 + (number of files) lines per member |
| Layout.PlainBlocksBreaks | cosima_cookbook/summary/nml_diff.py:188-197 | the plain blocks have 2 + (number of files) lines per group member |
| Layout.PlainLineCount | cosima_cookbook/summary/nml_diff.py:187-197 | the plain form has exactly (2 + number of files) lines per group member of the superset |
| Layout.HeaderStartCount | cosima_cookbook/summary/nml_diff.py:172 | the header's `File` cell holds two bars and no line break |
| Layout.HeaderCellCount | cosima_cookbook/summary/nml_diff.py:176 | a header cell holds one bar |
| Layout.HeaderCellsCount | cosima_cookbook/summary/nml_diff.py:175-177 | a group's header cells hold one bar per member |
| Layout.HeaderAllCount | cosima_cookbook/summary/nml_diff.py:174-177 | the header cells hold one bar per member column |
| Layout.MdHeaderCount | cosima_cookbook/summary/nml_diff.py:172-177 | the header line has (member columns + 2) bars and no line break |
| Layout.MdSeparatorCount | cosima_cookbook/summary/nml_diff.py:178 | the alignment line starts a new line and has (member columns + 2) bars |
| Layout.RowCellsCount | cosima_cookbook/summary/nml_diff.py:182-186 | a group's row cells hold one bar per member, blank or not |
| Layout.RowAllCount | cosima_cookbook/summary/nml_diff.py:181-186 | a row's cells hold one bar per member column |
| Layout.MdRowCount | cosima_cookbook/summary/nml_diff.py:179-186 | a row starts a new line and has (member columns + 2) bars |
| Layout.MdRowsBreaks | cosima_cookbook/summary/nml_diff.py:179-186 | one line per file |
| Layout.TableBreaks | cosima_cookbook/summary/nml_diff.py:172-186 | the table is a header line, an alignment line and one line per file |
| Layout.MdLineCount | cosima_cookbook/summary/nml_diff.py:170-186 | a non-empty Markdown table has 1 + (number of files) line breaks |
| Layout.ShapeOf | cosima_cookbook/summary/nml_diff.py:172-186 | header, alignment line and every row have the same number of bars |
| Layout.RowsShape | cosima_cookbook/summary/nml_diff.py:179-186 | every file's row has (member columns + 2) bars |
| Layout.TableShape | cosima_cookbook/summary/nml_diff.py:170-186 | for the superset of the collection, the header, the alignment line (one `--:\|` per member column) and each file's row all have (member columns + 2) bars |
| Layout.IndexOfKey | cosima_cookbook/summary/nml_diff.py:183 | with distinct keys, looking up a key finds that key's own namelist |
| Layout.EmptyOutput | cosima_cookbook/summary/nml_diff.py:170-198 | the superset is empty iff every namelist is empty; then both forms are `''`; otherwise the Markdown form is not empty |
| Order.AsDict | cosima_cookbook/summary/nml_diff.py:82-85 | the dict a key sequence and a namelist sequence stand for has exactly those keys |
| Order.SameDict | cosima_cookbook/summary/nml_diff.py:82-85 | the same dict listed in two orders has the same keys, the same namelist under each key and the same set of namelists |
| Order.SupersetShape | cosima_cookbook/summary/nml_diff.py:42-73 | the same namelists in any order give supersets with the same groups and the same members in each |
| Order.FileLinesSame | cosima_cookbook/summary/nml_diff.py:192-197 | the file lines depend only on the namelist looked up under each key |
| Order.GroupBlocksSame | cosima_cookbook/summary/nml_diff.py:189-197 | a group's blocks depend only on the namelist looked up under each key |
| Order.PlainBlocksSame | cosima_cookbook/summary/nml_diff.py:188-197 | the plain blocks depend only on the lookups and on the superset's groups and members, not its values |
| Order.HeaderAllSame | cosima_cookbook/summary/nml_diff.py:173-177 | the header cells and the column count depend only on the superset's groups and members |
| Order.RowAllSame | cosima_cookbook/summary/nml_diff.py:181-186 | a row's cells depend only on the file's namelist and the superset's groups and members |
| Order.MdRowsSame | cosima_cookbook/summary/nml_diff.py:179-186 | the rows depend only on the lookups and the superset's groups and members |
| Order.TableSame | cosima_cookbook/summary/nml_diff.py:171-186 | the table depends only on the lookups and the superset's groups and members |
| Order.RenderIgnoresOrder | cosima_cookbook/summary/nml_diff.py:162-198 | two listings of the same dict give the same plain text and the same Markdown text |
| Order.SameVerdicts | cosima_cookbook/summary/nml_diff.py:108-135 | the same namelists in any order agree on which groups are common, which members are agreed and which groups are dropped |
| Order.SameVerdictsOneWay | cosima_cookbook/summary/nml_diff.py:108-135 | every verdict over a set of namelists holds over any subset of them |
| Order.DiffFileSame | cosima_cookbook/summary/nml_diff.py:108-135 | what the diff leaves of a file depends on its namelist and the set of namelists, not their order |
| Order.DiffIgnoresOrder | cosima_cookbook/summary/nml_diff.py:76-136 | two listings of the same dict leave each key with the same namelist after `nmldiff` |
| Order.SummaryIgnoresOrder | cosima_cookbook/summary/nml_diff.py:76-198 | `strnmldict(nmldiff(nmlall))` gives the same text whichever order the dict lists its files in |

## Left out

- `nmldict` (`nml_diff.py:12-39`) and the command-line entry point
  (`nml_diff.py:201-220`) are not modelled. They read files with the
  f90nml parser, check paths and print. The model starts from an
  already-loaded collection.
- The f90nml `Namelist` type is a plain map from names to values in the
  model. Its case-insensitive keys, repeated groups (group arrays) and
  nested derived types are not modelled.
- Python's `repr` is a parameter. Value equality is Dafny's `==`, so it is
  assumed to be an equivalence (a NaN that is not equal to itself is not
  modelled). Equal values are also assumed to print alike. So one value
  spelled as an int, a float or a bool in different files (`1800`,
  `1800.0`) is outside the model: Python counts those equal, but their
  `repr` texts differ.
- The dict is two sequences in iteration order, and namelists are values.
  Aliasing between the caller's group objects is therefore not modelled.
  `superset` copies its groups, so in the source the same holds for the
  objects it touches.
- The loops over the superset's groups and members in `nmldiff`, and the
  loop over the groups in `superset` that copies and merges them
  (`Namelists.CopyAndUpdateGroups`, `nml_diff.py:66-71`), pick the next
  name arbitrarily, not in dict order. The result is proved for every
  choice.
- Text.Lower: only ASCII capitals and the Kelvin sign are lower-cased. The
  other characters stay as they are, which differs from `str.lower`. The
  choice of Markdown (`IsMarkdown`) is still exactly the source's,
  because no other character lower-cases to a letter of `md` or
  `markdown`.
- Layout.PlainLineCount, Layout.MdLineCount and Layout.TableShape count
  lines and cells by their characters. They assume that no file key,
  group name or member name holds a line break or a `|`, and that the
  text of no value held by the collection does. Values elsewhere are
  unconstrained. The source escapes neither character.
- The other files of the repository (`nml_summary.py`, `diagnostics/`,
  `plots/`) are not part of this model.
