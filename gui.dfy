/** The mapping viewer (src/gui/mod.rs): its state, the part of
    `load_mapping` that turns a downloaded mapping into classes, and the
    search filters of its class, method and field panels. */
module Gui {
  import opened Wrappers
  import opened Strings
  import opened Proguard

  /** The lines `load_mapping` looks at: those holding a separator. */
  predicate HasShift(line: string) {
    Contains(line, ShiftPrefix)
  }

  /** A line without four consecutive spaces anywhere starts a class block. */
  predicate IsHeaderLine(line: string) {
    !Contains(line, SpacePrefix)
  }

  /** The blocks already handed to `ProguardClass::deserialize`, and the
      lines still in `buffer`. */
  datatype Grouping = Grouping(flushed: seq<seq<string>>, buffer: seq<string>)

  /** One turn of the grouping loop: a header line flushes a non-empty
      buffer; every line is then pushed onto the buffer. */
  function GroupStep(g: Grouping, s: string): Grouping {
    if IsHeaderLine(s) && g.buffer != [] then Grouping(g.flushed + [g.buffer], [s])
    else Grouping(g.flushed, g.buffer + [s])
  }

  /** The grouping loop run over `lines`, from an empty buffer. */
  function Group(lines: seq<string>): (r: Grouping)
    ensures r.buffer == [] <==> lines == []
  {
    if lines == [] then Grouping([], [])
    else GroupStep(Group(lines[..|lines| - 1]), lines[|lines| - 1])
  }

  /** The blocks laid end to end. */
  function Flatten(blocks: seq<seq<string>>): seq<string> {
    if blocks == [] then []
    else Flatten(blocks[..|blocks| - 1]) + blocks[|blocks| - 1]
  }

  /** The number of header lines in `lines`. */
  function CountHeaders(lines: seq<string>): nat {
    if lines == [] then 0
    else CountHeaders(lines[..|lines| - 1]) + (if IsHeaderLine(lines[|lines| - 1]) then 1 else 0)
  }

  /** A block: at least one line, and no header after its first line. */
  predicate IsBlock(b: seq<string>) {
    b != [] && forall j :: 1 <= j < |b| ==> !IsHeaderLine(b[j])
  }

  /** Blocks as the grouping loop cuts them: each a block, and each but
      the first opening with a header line. */
  predicate AreBlocks(blocks: seq<seq<string>>) {
    (forall k :: 0 <= k < |blocks| ==> IsBlock(blocks[k]))
    && (forall k :: 0 < k < |blocks| ==> IsHeaderLine(blocks[k][0]))
  }

  lemma GroupSnoc(lines: seq<string>, s: string)
    ensures Group(lines + [s]) == GroupStep(Group(lines), s)
  {
    assert (lines + [s])[..|lines|] == lines;
  }

  lemma FlattenSnoc(blocks: seq<seq<string>>, b: seq<string>)
    ensures Flatten(blocks + [b]) == Flatten(blocks) + b
  {
    assert (blocks + [b])[..|blocks|] == blocks;
  }

  lemma GroupStepPartition(g: Grouping, s: string)
    ensures Flatten(GroupStep(g, s).flushed) + GroupStep(g, s).buffer
      == Flatten(g.flushed) + g.buffer + [s]
  {
    hide IsHeaderLine;
    if IsHeaderLine(s) && g.buffer != [] {
      FlattenSnoc(g.flushed, g.buffer);
    }
  }

  /** The grouping loop loses and reorders nothing: the flushed blocks and
      the buffer, laid end to end, are the lines it was given. */
  lemma {:induction false} GroupPartition(lines: seq<string>)
    ensures Flatten(Group(lines).flushed) + Group(lines).buffer == lines
  {
    if lines != [] {
      hide IsHeaderLine, Flatten, Group, GroupStep;
      var init := lines[..|lines| - 1];
      var s := lines[|lines| - 1];
      GroupPartition(init);
      assert lines == init + [s];
      GroupSnoc(init, s);
      GroupStepPartition(Group(init), s);
    }
  }

  /** The grouping loop cuts the lines into blocks that each open with a
      header line (but perhaps the very first) and hold no other. */
  lemma {:induction false} GroupShape(lines: seq<string>)
    ensures AreBlocks(Group(lines).flushed + [Group(lines).buffer]) || lines == []
  {
    if lines != [] {
      var init := lines[..|lines| - 1];
      var s := lines[|lines| - 1];
      var g := Group(init);
      var bs := Group(lines).flushed + [Group(lines).buffer];
      if init == [] {
        assert Group(lines) == GroupStep(Group(init), s);
        assert Group(lines) == Grouping([], [s]);
        assert bs == [[s]];
      } else {
        GroupShape(init);
        var old_bs := g.flushed + [g.buffer];
        if IsHeaderLine(s) {
          assert bs == old_bs + [[s]];
        } else {
          assert bs == g.flushed + [g.buffer + [s]];
          forall k | 0 <= k < |bs|
            ensures IsBlock(bs[k])
          {
            if k < |g.flushed| {
              assert bs[k] == old_bs[k];
            } else {
              assert old_bs[k] == g.buffer;
            }
          }
          forall k | 0 < k < |bs|
            ensures IsHeaderLine(bs[k][0])
          {
            assert bs[k][0] == old_bs[k][0];
          }
        }
      }
    }
  }

  /** Every header line after the first line closes exactly one block. */
  lemma {:induction false} GroupCount(lines: seq<string>)
    requires lines != []
    ensures |Group(lines).flushed| == CountHeaders(lines[1..])
  {
    if |lines| > 1 {
      var init := lines[..|lines| - 1];
      GroupCount(init);
      assert lines[1..][..|lines| - 2] == init[1..];
      assert lines[1..][|lines| - 2] == lines[|lines| - 1];
    }
  }

  /** Reading more lines only appends to what was flushed. */
  lemma {:induction false} GroupFlushedGrows(lines: seq<string>, n: nat)
    requires n <= |lines|
    ensures Group(lines[..n]).flushed <= Group(lines).flushed
    decreases |lines|
  {
    if n < |lines| {
      var init := lines[..|lines| - 1];
      assert init[..n] == lines[..n];
      GroupFlushedGrows(init, n);
    } else {
      assert lines[..n] == lines;
    }
  }

  /** What `load_mapping` leaves behind: the classes pushed, in order, and
      the parse error it stopped at (a panic in the source), if any. */
  datatype Loaded = Loaded(classes: seq<ProguardClass>, failure: Option<ParseError>)

  /** Each flushed block parsed in turn, stopping at the first that fails. */
  function ParseBlocks(blocks: seq<seq<string>>): (r: Loaded)
    ensures |r.classes| <= |blocks|
    ensures r.failure.None? ==> |r.classes| == |blocks|
  {
    if blocks == [] then Loaded([], None)
    else
      var l := ParseBlocks(blocks[..|blocks| - 1]);
      if l.failure.Some? then l
      else match ParseClass(blocks[|blocks| - 1])
        case Failure(e) => Loaded(l.classes, Some(e))
        case Success(c) => Loaded(l.classes + [c], None)
  }

  lemma ParseBlocksSnoc(blocks: seq<seq<string>>, b: seq<string>)
    ensures ParseBlocks(blocks + [b]) ==
      var l := ParseBlocks(blocks);
      if l.failure.Some? then l
      else match ParseClass(b)
        case Failure(e) => Loaded(l.classes, Some(e))
        case Success(c) => Loaded(l.classes + [c], None)
  {
    assert (blocks + [b])[..|blocks|] == blocks;
  }

  /** The classes are exactly the parses of the leading blocks, and a
      failure is that of the block right after them. */
  lemma {:induction false} ParseBlocksMeaning(blocks: seq<seq<string>>)
    ensures var r := ParseBlocks(blocks);
      && (forall k :: 0 <= k < |r.classes| ==> ParseClass(blocks[k]) == Success(r.classes[k]))
      && (r.failure.Some? ==>
            |r.classes| < |blocks| && ParseClass(blocks[|r.classes|]) == Failure(r.failure.value))
  {
    hide ParseClass;
    if blocks != [] {
      var init := blocks[..|blocks| - 1];
      ParseBlocksMeaning(init);
      forall k | 0 <= k < |init|
        ensures blocks[k] == init[k]
      {
      }
    }
  }

  /** Once a block fails, later blocks change nothing. */
  lemma {:induction false} ParseBlocksFailurePersists(blocks: seq<seq<string>>, n: nat)
    requires n <= |blocks| && ParseBlocks(blocks[..n]).failure.Some?
    ensures ParseBlocks(blocks) == ParseBlocks(blocks[..n])
    decreases |blocks|
  {
    hide ParseClass;
    if n < |blocks| {
      var init := blocks[..|blocks| - 1];
      assert init[..n] == blocks[..n];
      ParseBlocksFailurePersists(init, n);
    } else {
      assert blocks[..n] == blocks;
    }
  }

  /** The mapping lines of a downloaded body that the loop sees. */
  function MappingLines(body: string): (r: seq<string>)
    ensures forall line :: line in r <==> line in Split(body, '\n') && HasShift(line)
  {
    Filter(Split(body, '\n'), HasShift)
  }

  /** `load_mapping` as written: only flushed blocks are ever parsed. */
  function Reload(body: string): Loaded {
    ParseBlocks(Group(MappingLines(body)).flushed)
  }

  /** Every block, the last one included. */
  function Blocks(lines: seq<string>): seq<seq<string>> {
    var g := Group(lines);
    if g.buffer == [] then g.flushed else g.flushed + [g.buffer]
  }

  /** `load_mapping` with the final buffer flushed after the loop. */
  function ReloadFlushed(body: string): Loaded {
    ParseBlocks(Blocks(MappingLines(body)))
  }

  /** A failure in the lines read so far is the final outcome. */
  lemma FailureIsFinal(lines: seq<string>, i: nat)
    requires i <= |lines|
    requires ParseBlocks(Group(Filter(lines[..i], HasShift)).flushed).failure.Some?
    ensures ParseBlocks(Group(Filter(lines, HasShift)).flushed)
      == ParseBlocks(Group(Filter(lines[..i], HasShift)).flushed)
  {
    hide ParseBlocks, Group, Filter, ParseClass;
    var whole := Filter(lines, HasShift);
    var part := Filter(lines[..i], HasShift);
    FilterAppend(lines[..i], lines[i..], HasShift);
    assert lines[..i] + lines[i..] == lines;
    assert whole[..|part|] == part;
    GroupFlushedGrows(whole, |part|);
    var p := Group(part).flushed;
    assert Group(whole).flushed[..|p|] == p;
    ParseBlocksFailurePersists(Group(whole).flushed, |p|);
  }

  /** The grouping loop of `load_mapping` over the lines of the body: it
      keeps the lines holding a separator, flushes the buffer into
      `ProguardClass::deserialize` at each header line, and stops at the
      first block that does not parse. */
  method GroupAndParse(lines: seq<string>)
      returns (classes: seq<ProguardClass>, buffer: seq<string>, failure: Option<ParseError>)
    ensures Loaded(classes, failure) == ParseBlocks(Group(Filter(lines, HasShift)).flushed)
    ensures failure.None? ==> buffer == Group(Filter(lines, HasShift)).buffer
  {
    classes := [];
    buffer := [];
    ghost var flushed: seq<seq<string>> := [];
    assert Group(Filter(lines[..0], HasShift)) == Grouping([], []);
    assert ParseBlocks([]) == Loaded([], None);
    hide ParseClass, ParseBlocks, Group, Filter;
    for i := 0 to |lines|
      invariant Group(Filter(lines[..i], HasShift)) == Grouping(flushed, buffer)
      invariant ParseBlocks(flushed) == Loaded(classes, None)
    {
      var s := lines[i];
      FilterSnoc(lines, i, HasShift);
      if Contains(s, ShiftPrefix) {
        assert Filter(lines[..i + 1], HasShift) == Filter(lines[..i], HasShift) + [s];
        GroupSnoc(Filter(lines[..i], HasShift), s);
        assert Group(Filter(lines[..i + 1], HasShift)) == GroupStep(Grouping(flushed, buffer), s);
        if !Contains(s, SpacePrefix) && buffer != [] {
          var c := ClassDeserialize(buffer);
          ParseBlocksSnoc(flushed, buffer);
          flushed := flushed + [buffer];
          if c.Failure? {
            failure := Some(c.error);
            FailureIsFinal(lines, i + 1);
            return;
          }
          classes := classes + [c.value];
          buffer := [];
        }
        buffer := buffer + [s];
      } else {
        assert Filter(lines[..i + 1], HasShift) == Filter(lines[..i], HasShift);
      }
    }
    assert lines[..|lines|] == lines;
    failure := None;
  }

  lemma {:induction false} NoHeadersCountZero(lines: seq<string>)
    requires forall j :: 0 <= j < |lines| ==> !IsHeaderLine(lines[j])
    ensures CountHeaders(lines) == 0
  {
    if lines != [] {
      NoHeadersCountZero(lines[..|lines| - 1]);
    }
  }

  /** As written, the block still buffered when the lines run out is never
      parsed: fewer classes are loaded than the mapping has blocks. */
  lemma LastBlockNeverParsed(body: string)
    requires MappingLines(body) != []
    ensures |Reload(body).classes| < |Blocks(MappingLines(body))|
  {
  }

  /** As written, a mapping holding a single class block loads no class
      and reports no error. */
  lemma SingleClassMappingLoadsNothing(body: string)
    requires MappingLines(body) != []
    requires forall j :: 1 <= j < |MappingLines(body)| ==> !IsHeaderLine(MappingLines(body)[j])
    ensures Reload(body) == Loaded([], None)
  {
    var xs := MappingLines(body);
    GroupCount(xs);
    forall j | 0 <= j < |xs[1..]|
      ensures !IsHeaderLine(xs[1..][j])
    {
      assert xs[1..][j] == xs[j + 1];
    }
    NoHeadersCountZero(xs[1..]);
  }

  /** A body without a single line holding a separator loads no class and
      reports no failure, with or without the final flush. */
  lemma NoMappingLinesLoadsNothing(body: string)
    requires forall line :: line in Split(body, '\n') ==> !HasShift(line)
    ensures Reload(body) == Loaded([], None)
    ensures ReloadFlushed(body) == Loaded([], None)
  {
    FilterNone(Split(body, '\n'), HasShift);
    assert Group(MappingLines(body)) == Grouping([], []);
  }

  /** With the final flush, every line lands in one block, in order; the
      blocks are cut at the header lines, one more than the header lines
      after the first line. */
  lemma BlocksCoverLines(lines: seq<string>)
    ensures Flatten(Blocks(lines)) == lines
    ensures AreBlocks(Blocks(lines))
    ensures lines != [] ==> |Blocks(lines)| == CountHeaders(lines[1..]) + 1
  {
    hide IsHeaderLine;
    GroupPartition(lines);
    GroupShape(lines);
    var g := Group(lines);
    if lines == [] {
      assert g == Grouping([], []);
    } else {
      GroupCount(lines);
      FlattenSnoc(g.flushed, g.buffer);
    }
  }

  lemma {:induction false} CountHeadersFirst(lines: seq<string>)
    requires lines != []
    ensures CountHeaders(lines) == CountHeaders(lines[1..]) + (if IsHeaderLine(lines[0]) then 1 else 0)
  {
    hide IsHeaderLine;
    if |lines| > 1 {
      var init := lines[..|lines| - 1];
      CountHeadersFirst(init);
      assert lines[1..][..|lines| - 2] == init[1..];
      assert lines[1..][|lines| - 2] == lines[|lines| - 1];
    }
  }

  /** As written, a mapping that opens with a header and parses yields one
      class fewer than it has header lines: the last block is dropped. */
  lemma ReloadDropsOneClass(body: string)
    requires MappingLines(body) != [] && IsHeaderLine(MappingLines(body)[0])
    requires Reload(body).failure.None?
    ensures |Reload(body).classes| == CountHeaders(MappingLines(body)) - 1
  {
    GroupCount(MappingLines(body));
    CountHeadersFirst(MappingLines(body));
  }

  /** With the final flush, a mapping that opens with a header and parses
      yields one class per header line. */
  lemma ReloadFlushedLoadsEveryBlock(body: string)
    requires MappingLines(body) != [] && IsHeaderLine(MappingLines(body)[0])
    requires ReloadFlushed(body).failure.None?
    ensures |ReloadFlushed(body).classes| == CountHeaders(MappingLines(body))
  {
    BlocksCoverLines(MappingLines(body));
    CountHeadersFirst(MappingLines(body));
  }

  lemma {:induction false} InBlockInFlatten(blocks: seq<seq<string>>, k: nat, line: string)
    requires k < |blocks| && line in blocks[k]
    ensures line in Flatten(blocks)
  {
    FlattenSnoc(blocks[..|blocks| - 1], blocks[|blocks| - 1]);
    assert blocks == blocks[..|blocks| - 1] + [blocks[|blocks| - 1]];
    if k < |blocks| - 1 {
      InBlockInFlatten(blocks[..|blocks| - 1], k, line);
    }
  }

  /** Only lines of the body holding a separator ever reach a block, and
      so `ProguardClass::deserialize`. */
  lemma BlocksHoldOnlyMappingLines(body: string, k: nat, line: string)
    requires k < |Blocks(MappingLines(body))| && line in Blocks(MappingLines(body))[k]
    ensures line in Split(body, '\n') && HasShift(line)
  {
    BlocksCoverLines(MappingLines(body));
    InBlockInFlatten(Blocks(MappingLines(body)), k, line);
  }

  /** The items whose name holds `needle`, in their original order; an
      empty search shows nothing. */
  function Search<T(!new)>(items: seq<T>, name: T -> string, needle: string): (r: seq<T>)
    ensures |r| <= |items|
    ensures forall x :: x in r <==> needle != [] && x in items && Contains(name(x), needle)
  {
    if needle == [] then [] else Filter(items, x => Contains(name(x), needle))
  }

  /** Searching concatenated lists searches each in turn: results keep the
      list order. */
  lemma SearchAppend<T(!new)>(a: seq<T>, b: seq<T>, name: T -> string, needle: string)
    ensures Search(a + b, name, needle) == Search(a, name, needle) + Search(b, name, needle)
  {
    if needle != [] {
      FilterAppend(a, b, x => Contains(name(x), needle));
    }
  }

  /** Typing more narrows the results: a search for a text that contains
      `shorter` shows nothing a search for `shorter` hides. */
  lemma SearchNarrows<T(!new)>(items: seq<T>, name: T -> string, shorter: string, longer: string)
    requires shorter != [] && Contains(longer, shorter)
    ensures forall x :: x in Search(items, name, longer) ==> x in Search(items, name, shorter)
  {
    forall x | x in Search(items, name, longer)
      ensures x in Search(items, name, shorter)
    {
      ContainsTransitive(name(x), longer, shorter);
    }
  }

  /** The viewer's state (`MyApp`): the loaded classes, the class shown in
      the member panels, and the three search boxes. */
  class MappingViewer {
    var classes: seq<ProguardClass>
    var focusedClass: Option<ProguardClass>
    var classSearch: string
    var methodSearch: string
    var fieldSearch: string

    /** `MyApp::default()`: nothing loaded, nothing focused, and each
        search box holding its placeholder text. */
    constructor ()
      ensures classes == [] && focusedClass == None
      ensures classSearch == "Class search"
      ensures methodSearch == "Method search"
      ensures fieldSearch == "Field search"
    {
      classes := [];
      focusedClass := None;
      classSearch := "Class search";
      fieldSearch := "Field search";
      methodSearch := "Method search";
    }

    /** `load_mapping` once the mapping `body` is downloaded: the focus is
        dropped, the classes are reloaded from the body, and a block that
        does not parse stops the load with its error. */
    method LoadMapping(body: string) returns (failure: Option<ParseError>)
      modifies this`classes, this`focusedClass
      ensures focusedClass == None
      ensures Loaded(classes, failure) == Reload(body)
    {
      focusedClass := None;
      classes := [];
      var lines := Split(body, '\n');
      var loaded, buffer;
      loaded, buffer, failure := GroupAndParse(lines);
      classes := loaded;
    }

    /** `load_mapping` with the buffer flushed once more after the loop,
        so that the last class block is parsed too. */
    method LoadMappingFlushed(body: string) returns (failure: Option<ParseError>)
      modifies this`classes, this`focusedClass
      ensures focusedClass == None
      ensures Loaded(classes, failure) == ReloadFlushed(body)
    {
      focusedClass := None;
      classes := [];
      var lines := Split(body, '\n');
      var loaded, buffer;
      loaded, buffer, failure := GroupAndParse(lines);
      classes := loaded;
      ghost var g := Group(MappingLines(body));
      if failure.Some? {
        if g.buffer != [] {
          assert (g.flushed + [g.buffer])[..|g.flushed|] == g.flushed;
          ParseBlocksFailurePersists(g.flushed + [g.buffer], |g.flushed|);
        }
      } else if buffer != [] {
        var c := ClassDeserialize(buffer);
        ParseBlocksSnoc(g.flushed, buffer);
        if c.Failure? {
          failure := Some(c.error);
        } else {
          classes := classes + [c.value];
        }
      }
    }

    /** The classes listed under the class search box. */
    function VisibleClasses(): (r: seq<ProguardClass>)
      reads this
      ensures forall c :: c in r <==> classSearch != [] && c in classes && Contains(c.deobfed, classSearch)
    {
      Search(classes, (c: ProguardClass) => c.deobfed, classSearch)
    }

    /** The methods of the focused class listed under the method search box. */
    function VisibleMethods(): (r: seq<ProguardMethod>)
      reads this
      ensures forall m :: m in r <==>
        focusedClass.Some? && methodSearch != [] && m in focusedClass.value.methods
        && Contains(m.deobfed, methodSearch)
    {
      match focusedClass
      case None => []
      case Some(c) => Search(c.methods, (m: ProguardMethod) => m.deobfed, methodSearch)
    }

    /** The fields of the focused class listed under the field search box. */
    function VisibleFields(): (r: seq<ProguardField>)
      reads this
      ensures forall f :: f in r <==>
        focusedClass.Some? && fieldSearch != [] && f in focusedClass.value.fields
        && Contains(f.deobfed, fieldSearch)
    {
      match focusedClass
      case None => []
      case Some(c) => Search(c.fields, (f: ProguardField) => f.deobfed, fieldSearch)
    }

    /** A click on the `k`-th listed class focuses a copy of it. */
    method FocusClass(k: nat)
      requires k < |VisibleClasses()|
      modifies this`focusedClass
      ensures focusedClass == Some(old(VisibleClasses())[k])
    {
      var c := ClassCopy(VisibleClasses()[k]);
      focusedClass := Some(c);
    }
  }
}
