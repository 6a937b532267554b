# ProGuard mapping viewer — Dafny model

This project models the core of a small Minecraft mapping viewer written in
Rust. The viewer downloads a ProGuard-style mapping file, groups its lines into
class blocks, parses each block into a class record, and lets the user search
classes, methods and fields by their deobfuscated names.

A mapping file looks like this:

```
net.minecraft.Foo -> a:
    int bar -> b
    5:9:void baz() -> c
```

A class header is `Deobf.Name -> obf:`. A member line below it holds `(` if it
is a method; any other member line is a field. The record parsers
(`src/proguard/mod.rs`) and the grouping loop and search filters
(`src/gui/mod.rs`) are modelled in four modules:

- `wrappers.dfy` (`Wrappers`): `Option` and `Result`.
- `strings.dfy` (`Strings`): the string primitives the Rust code calls, each
  proved against its meaning:
  - `contains` and `find`;
  - `split(":").last()` and `split("\n")`;
  - `Iterator::filter`.
  Strings are ASCII, so byte offsets and character offsets coincide.
- `proguard.dfy` (`Proguard`): the records and parsers.
  - `ProguardMethod::deserialize` and `ProguardField::deserialize` are
    functions. `ProguardClass::deserialize` is a method with the source's
    loop, proved equal to the function `ParseClass`.
  - The `copy` methods are methods proved to return their argument.
    `ClassCopy` copies the fields and methods with a loop each.
  - Every panic point that input can reach becomes a `Failure` result:
    - `EmptyBlock`: the index `data[0]` into an empty buffer;
    - `MissingSeparator`: the `unwrap()` of a `find` that finds no ` -> `;
    - `ShortFieldLine`: the `unwrap()` of `get(4..)` on a field line under
      four characters.
- `gui.dfy` (`Gui`): the viewer state `MyApp` as the class `MappingViewer`.
  - `load_mapping`'s grouping loop is the method `GroupAndParse`, proved
    against the specification functions `Group` and `ParseBlocks`.
  - The three search panels are instances of one `Search` function.

The model follows the code as written:

- The class `obfed` keeps the header's trailing `:`.
- A method line without a line-number prefix keeps its four-space
  indentation in `deobfed`.
- A field line loses its first four characters, whatever they are.
- A line is a class header when it holds no run of four spaces anywhere,
  not only when it lacks the indentation.
- The buffer is never flushed after the loop, so the last class block of
  every mapping is dropped. See "Findings".
- A body with no line holding ` -> ` loads no class and reports no failure.

## Model

| member | source | states |
|---|---|---|
| Strings.Find | src/proguard/mod.rs:18 | `find` returns an offset exactly when the text contains the pattern. The offset is an occurrence, and no occurrence starts before it. |
| Strings.LastSegment | src/proguard/mod.rs:16 | The last piece of `split(sep)` is a suffix free of `sep`. When it is not the whole text, a `sep` immediately precedes it. |
| Strings.LastSegmentAfterSep | src/proguard/mod.rs:16 | For `p + [sep] + s` with `s` free of `sep`, the last piece is exactly `s`, so any line-number prefix is dropped. |
| Strings.LastSegmentWithoutSep | src/proguard/mod.rs:16 | A text without `sep` is its own last piece. |
| Strings.Split | src/gui/mod.rs:109 | `body.split("\n")` yields at least one piece, and no piece holds the separator. |
| Strings.JoinSplit | src/gui/mod.rs:109 | Joining the pieces of a split with the separator gives back the text: no character is lost. |
| Strings.SplitJoin | src/gui/mod.rs:109 | Splitting pieces that were joined, when none holds the separator, gives back exactly those pieces. |
| Strings.Filter | src/gui/mod.rs:111 | An element is kept iff it was in the input and satisfies the predicate. The result is no longer than the input. |
| Strings.FilterAppend | src/gui/mod.rs:111 | Filtering a concatenation is the concatenation of the filtered parts, so input order is kept. |
| Strings.Contains | src/proguard/mod.rs:106 | `str::contains`: the pattern occurs at some offset of the text (a definition, with no ensures). |
| Proguard.CutAtShift | src/proguard/mod.rs:18-22 | The cut exists iff the text contains ` -> `. When it exists, `before ++ " -> " ++ after` is the text, and the separator is the first one. |
| Proguard.SplitIsUnique | src/proguard/mod.rs:18-22 | A text has at most one split at its first separator. |
| Proguard.NameBeforeShiftIsShiftFree | src/proguard/mod.rs:18-21 | The name before the first separator holds no ` -> `. |
| Proguard.CutAfterName | src/proguard/mod.rs:18-22 | `name ++ " -> " ++ rest` is cut back into `(name, rest)` exactly when no ` -> ` starts inside `name`, that is, when `name ++ " "` holds no ` -> `. |
| Proguard.CutAfterShiftFreeName | src/proguard/mod.rs:18-22 | The "if" half of `CutAfterName`: with no separator starting inside `name`, the cut is `(name, rest)`. |
| Proguard.CutInsideName | src/proguard/mod.rs:18-22 | The "only if" half: a separator starting inside `name` is found first, so the cut is not `(name, rest)`. |
| Proguard.NameWithoutArrowIsShiftFree | src/proguard/mod.rs:18 | A name missing `-` or `>`, such as `void <init>()`, has no separator starting inside it. |
| Proguard.MethodDeserialize | src/proguard/mod.rs:15-33 | Works on the last `:`-piece of the line. It succeeds iff that piece holds ` -> `, and fails with `MissingSeparator(line)` otherwise. `deobfed ++ " -> " ++ obfed` is that piece, cut at its first separator. Neither name holds `:`. |
| Proguard.FieldDeserialize | src/proguard/mod.rs:56-72 | It succeeds iff the line has at least four characters and ` -> ` occurs after them. A shorter line fails with `ShortFieldLine`; otherwise it fails with `MissingSeparator`. On success, `line == line[..4] ++ deobfed ++ " -> " ++ obfed`, cut at the first separator after the four characters. |
| Proguard.IsMethodLine | src/proguard/mod.rs:106 | A member line is a method line iff it holds `(`; any other is a field line (a definition, with no ensures). |
| Proguard.PushMember | src/proguard/mod.rs:106-110 | One member line is accepted iff it parses as the kind `(` selects. The member lists then grow by one. |
| Proguard.ParseMembers | src/proguard/mod.rs:103-111 | On success, the member lines give exactly `|fields| + |methods|` members. |
| Proguard.ParseMembersSucceedsIff | src/proguard/mod.rs:103-111 | The members loop succeeds iff every member line parses as the kind `(` selects. |
| Proguard.ParseMembersOrder | src/proguard/mod.rs:103-111 | `methods` are the parses of the lines holding `(`, and `fields` of the other lines. Each list is in input order, element by element. |
| Proguard.ParseMembersFailurePersists | src/proguard/mod.rs:103-111 | Once a member line fails, later lines do not change the outcome. |
| Proguard.ParseClass | src/proguard/mod.rs:96-119 | An empty block fails with `EmptyBlock`. A header without ` -> ` fails with `MissingSeparator(header)`. On success, `data[0] == deobfed ++ " -> " ++ obfed`, and a trailing `:` of the header stays in `obfed`. `|fields| + |methods| == |data| - 1`. |
| Proguard.ParseClassSucceedsIff | src/proguard/mod.rs:96-119 | A block parses iff it is non-empty, its header holds ` -> `, and every line after the header parses as its kind. |
| Proguard.ParseClassMembers | src/proguard/mod.rs:103-111 | A parsed class's methods and fields are the parses of the lines after the header, split by `(`, in input order. The header is never a member. |
| Proguard.ClassDeserialize | src/proguard/mod.rs:96-119 | The loop pushing into `fields` and `methods` returns exactly `ParseClass(data)`, error cases included. |
| Proguard.MethodCopy | src/proguard/mod.rs:35-45 | The copy equals the original. |
| Proguard.FieldCopy | src/proguard/mod.rs:74-84 | The copy equals the original. |
| Proguard.ClassCopy | src/proguard/mod.rs:121-138 | The copy equals the original: same names, and the same fields and methods in the same order. |
| Proguard.NumberedMethodLineParses | src/proguard/mod.rs:15-33 | Round trip: `prefix:deobfed -> obfed` parses back to `(deobfed, obfed)` when neither name holds `:` and no separator starts inside `deobfed`. |
| Proguard.UnnumberedMethodLineParses | src/proguard/mod.rs:16-22 | Round trip without a line-number prefix, under the same conditions: the whole line, indentation included, is the working piece. |
| Proguard.FieldLineParses | src/proguard/mod.rs:56-65 | Round trip: any four characters followed by `deobfed -> obfed` parse back to `(deobfed, obfed)` when no separator starts inside `deobfed`. |
| Proguard.NumberedMethodLineExample | src/proguard/mod.rs:16-22 | `5:9:void baz() -> c` parses to `("void baz()", "c")`. |
| Proguard.ConstructorLineExample | src/proguard/mod.rs:16-22 | `1:1:void <init>() -> <init>` parses to `("void <init>()", "<init>")`. |
| Proguard.IndentedMethodLineExample | src/proguard/mod.rs:16-22 | `    int foo() -> a` parses to `("    int foo()", "a")`, keeping the indentation. |
| Proguard.FieldLineExamples | src/proguard/mod.rs:57-61 | `  x` fails as too short. `a -> b` fails because no separator lies wholly after its first four characters. |
| Gui.HasShift | src/gui/mod.rs:111 | A body line takes part in the load iff it holds ` -> ` (a definition, with no ensures). |
| Gui.IsHeaderLine | src/gui/mod.rs:112 | A line is a header iff it holds no run of four spaces anywhere in it, not only at its start (a definition, with no ensures). |
| Gui.GroupStep | src/gui/mod.rs:112-117 | One turn of the loop: a header meeting a non-empty buffer flushes it and restarts the buffer with the header; any other line is appended. `GroupStepPartition` states that no line is lost. |
| Gui.GroupStepPartition | src/gui/mod.rs:112-117 | After one turn, the flushed blocks and the buffer, laid end to end, are what they were before followed by the new line. |
| Gui.MappingLines | src/gui/mod.rs:109-111 | A line reaches the loop iff it is a piece of `body.split("\n")` that holds ` -> `. |
| Gui.Reload | src/gui/mod.rs:109-119 | The as-written load: `ParseBlocks` over the blocks the loop flushes, leaving out the final buffer (a definition, with no ensures). |
| Gui.ReloadFlushed | src/gui/mod.rs:109-119 | The corrected load: `ParseBlocks` over every block, the final buffer included (a definition, with no ensures). |
| Gui.NoMappingLinesLoadsNothing | src/gui/mod.rs:109-119 | A body with no line holding ` -> ` loads no class and reports no failure, with or without the final flush. |
| Gui.Group | src/gui/mod.rs:110-118 | After the loop the buffer is empty iff no line was read. |
| Gui.GroupPartition | src/gui/mod.rs:110-118 | The flushed blocks followed by the buffer are exactly the lines read: none lost, none reordered. |
| Gui.GroupShape | src/gui/mod.rs:112-117 | Every block is non-empty and holds no header after its first line. Every block but the first opens with a header. |
| Gui.GroupCount | src/gui/mod.rs:112-116 | The number of flushes equals the number of header lines after the first line. |
| Gui.GroupFlushedGrows | src/gui/mod.rs:111-116 | Reading more lines only appends flushed blocks. |
| Gui.ParseBlocks | src/gui/mod.rs:112-114 | At most one class per block. Without a failure, exactly one class per block. |
| Gui.ParseBlocksMeaning | src/gui/mod.rs:112-114 | The classes are the parses of the leading blocks, in order. A failure is that of the first block that does not parse. |
| Gui.ParseBlocksFailurePersists | src/gui/mod.rs:113-114 | After a block fails, later blocks change nothing. |
| Gui.FailureIsFinal | src/gui/mod.rs:111-118 | A failure among the lines read so far is the final outcome for the whole body. |
| Gui.GroupAndParse | src/gui/mod.rs:109-118 | The loop yields the classes and failure of `ParseBlocks` over `Group` of the lines holding ` -> `. Without a failure, the buffer it leaves is `Group`'s buffer. |
| Gui.LastBlockNeverParsed | src/gui/mod.rs:111-119 | As written, fewer classes are loaded than the mapping has blocks. |
| Gui.SingleClassMappingLoadsNothing | src/gui/mod.rs:111-119 | As written, a mapping with a single class block loads no class and reports no error. |
| Gui.ReloadDropsOneClass | src/gui/mod.rs:111-119 | As written, a mapping that opens with a header and parses loads one class fewer than it has header lines. |
| Gui.BlocksCoverLines | src/gui/mod.rs:111-119 | With the final flush, the blocks laid end to end are the mapping lines, cut at the headers. There is one block more than the header lines after the first line. |
| Gui.ReloadFlushedLoadsEveryBlock | src/gui/mod.rs:111-119 | With the final flush, a mapping that opens with a header and parses loads one class per header line. |
| Gui.BlocksHoldOnlyMappingLines | src/gui/mod.rs:111 | Every line in a block is a line of the body that holds ` -> `. |
| Gui.Search | src/gui/mod.rs:168-171 | An empty needle shows nothing. Otherwise an item is shown iff its `deobfed` contains the needle, case-sensitively. |
| Gui.SearchAppend | src/gui/mod.rs:168-171 | Results keep the list order: searching a concatenation concatenates the searches. |
| Gui.SearchNarrows | src/gui/mod.rs:168-171 | A needle that contains another shows a subset of what the other shows. |
| Gui.MappingViewer.constructor | src/gui/mod.rs:37-52 | Starts with no classes, no focus, and the placeholder text in each search box. |
| Gui.MappingViewer.LoadMapping | src/gui/mod.rs:107-118 | The focus is dropped. The classes and failure are those of `Reload(body)`: the body is split at `\n`, lines without ` -> ` are dropped, and the flushed blocks are parsed. |
| Gui.MappingViewer.LoadMappingFlushed | src/gui/mod.rs:107-119 | The same as `LoadMapping`, but the last block is also parsed (`ReloadFlushed(body)`). |
| Gui.MappingViewer.VisibleClasses | src/gui/mod.rs:168-171 | A class is listed iff the class search is non-empty and its `deobfed` contains it. |
| Gui.MappingViewer.VisibleMethods | src/gui/mod.rs:184-197 | Nothing is listed without a focused class. Otherwise a method of that class is listed iff the method search is non-empty and occurs in its `deobfed`. |
| Gui.MappingViewer.VisibleFields | src/gui/mod.rs:217-221 | Nothing is listed without a focused class. Otherwise a field of that class is listed iff the field search is non-empty and occurs in its `deobfed`. |
| Gui.MappingViewer.FocusClass | src/gui/mod.rs:178-179 | Clicking the `k`-th listed class focuses a copy equal to it. |

## Left out

- The egui/eframe interface: window setup, layout, buttons, scroll areas, the text boxes, and the display strings built with `P`. These are presentation only.
- `update_version_entry` and the version list: the `APPDATA` variable and the directory listing are file-system I/O.
- Lines 83-106 of `load_mapping`: the path construction, the `file_path.exists()` check, the JSON read with `serde_json`, and the HTTP download. These are I/O and foreign libraries. `LoadMapping` takes the downloaded body as its argument and models the branch where the file exists.
- UTF-8: strings are ASCII. The char-boundary failures of `str::get` and the byte offsets of `find` are not modelled.
- Panics are modelled as `Failure` values rather than aborts. When a block fails, `LoadMapping` returns the error, and `classes` holds the classes pushed before that block. That is what `self.classes` holds when the panic leaves `load_mapping`.
- Gui.MappingViewer.LoadMapping: the classes are built in `GroupAndParse`'s result and assigned to the field once, rather than pushed into `self.classes` one by one. Nothing reads the field during the loop, so only the order of the writes differs.
- A `\r` before a `\n` stays part of its line, as it does in the source. Line-ending normalisation is not modelled because the source does none.

## Findings

| source | as written | input that shows it | evidently intended | confidence | as-written member | corrected member |
|---|---|---|---|---|---|---|
| src/gui/mod.rs:111-119 | The buffer is flushed into a class only when a later header line arrives. Nothing flushes it after the loop, so the last class block is never parsed. | A body whose only lines holding ` -> ` are `a.B -> c:` and `    int x -> y` loads no class at all. | After the loop, a non-empty buffer is parsed and pushed too, so every class block is loaded. | not executed | Gui.SingleClassMappingLoadsNothing | Gui.MappingViewer.LoadMappingFlushed |
