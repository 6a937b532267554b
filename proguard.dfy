/** The ProGuard mapping records and their line parsers (src/proguard/mod.rs).
    A class block is a header line `Deobf.Name -> obf:` followed by member
    lines; a member line holding `(` is a method, any other is a field.
    Every `unwrap()` of the source that can fail is a `Failure` here. */
module Proguard {
  import opened Wrappers
  import opened Strings

  /** The separator between a deobfuscated and an obfuscated name. */
  const ShiftPrefix: string := " -> "
  /** The member indentation; also the number of characters a field line loses. */
  const SpacePrefix: string := "    "

  datatype ProguardMethod = ProguardMethod(deobfed: string, obfed: string)

  datatype ProguardField = ProguardField(deobfed: string, obfed: string)

  datatype ProguardClass = ProguardClass(
    deobfed: string,
    obfed: string,
    fields: seq<ProguardField>,
    methods: seq<ProguardMethod>)

  /** The panics of the source, as values. */
  datatype ParseError =
    | EmptyBlock                      // `data[0]` on an empty buffer
    | MissingSeparator(line: string)  // `find(SHIFT_PREFIX).unwrap()` found nothing
    | ShortFieldLine(line: string)    // `get(SPACE_PREFIX_LEN..len).unwrap()` on a line under 4 characters

  /** `(before, after)` splits `focus` at its FIRST separator. */
  predicate SplitsAtFirstShift(focus: string, before: string, after: string) {
    before + ShiftPrefix + after == focus && NoOccurrenceBefore(focus, ShiftPrefix, |before|)
  }

  /** The `find` and the two `get`s every parser performs: the text before
      the first ` -> ` and the text after it up to the end of the line. */
  function CutAtShift(focus: string): (r: Option<(string, string)>)
    ensures r.Some? <==> Contains(focus, ShiftPrefix)
    ensures r.Some? ==> SplitsAtFirstShift(focus, r.value.0, r.value.1)
  {
    match Find(focus, ShiftPrefix)
    case None => None
    case Some(i) =>
      assert focus == focus[..i] + focus[i..i + |ShiftPrefix|] + focus[i + |ShiftPrefix|..];
      Some((focus[..i], focus[i + |ShiftPrefix|..]))
  }

  /** The split at the first separator is the only one: two splits of the
      same text that both use its first separator agree. */
  lemma SplitIsUnique(focus: string, b1: string, a1: string, b2: string, a2: string)
    requires SplitsAtFirstShift(focus, b1, a1) && SplitsAtFirstShift(focus, b2, a2)
    ensures b1 == b2 && a1 == a2
  {
    assert OccursAt(focus, ShiftPrefix, |b1|) by {
      assert focus[|b1|..|b1| + |ShiftPrefix|] == ShiftPrefix;
    }
    assert OccursAt(focus, ShiftPrefix, |b2|) by {
      assert focus[|b2|..|b2| + |ShiftPrefix|] == ShiftPrefix;
    }
    assert |b1| == |b2|;
    assert b1 == focus[..|b1|] && b2 == focus[..|b2|];
    assert a1 == focus[|b1| + |ShiftPrefix|..] && a2 == focus[|b2| + |ShiftPrefix|..];
  }

  /** A name in which no separator starts is followed by the first
      separator of the line: a separator starting in its last three
      characters would need it to end in ` ->` followed by a space. */
  lemma CutAfterShiftFreeName(before: string, after: string)
    requires !Contains(before + " ", ShiftPrefix)
    ensures CutAtShift(before + ShiftPrefix + after) == Some((before, after))
  {
    var focus := before + ShiftPrefix + after;
    var padded := before + " ";
    forall j | 0 <= j < |before|
      ensures !OccursAt(focus, ShiftPrefix, j)
    {
      if j + 4 <= |padded| {
        assert focus[j..j + 4] == padded[j..j + 4];
        assert !OccursAt(padded, ShiftPrefix, j);
      } else if j + 2 == |before| {
        assert focus[j..j + 4][2] == ' ' != ShiftPrefix[2];
      } else {
        assert focus[j..j + 4][1] == ' ' != ShiftPrefix[1];
      }
    }
    assert OccursAt(focus, ShiftPrefix, |before|) by {
      assert focus[|before|..|before| + |ShiftPrefix|] == ShiftPrefix;
    }
    var r := CutAtShift(focus);
    SplitIsUnique(focus, r.value.0, r.value.1, before, after);
  }

  /** A separator starting inside the name is found first, so the line is
      cut short of the name. */
  lemma CutInsideName(before: string, after: string)
    requires Contains(before + " ", ShiftPrefix)
    ensures CutAtShift(before + ShiftPrefix + after) != Some((before, after))
  {
    var focus := before + ShiftPrefix + after;
    var padded := before + " ";
    var i :| 0 <= i <= |padded| - |ShiftPrefix| && OccursAt(padded, ShiftPrefix, i);
    assert focus[i..i + 4] == padded[i..i + 4];
    assert OccursAt(focus, ShiftPrefix, i);
  }

  /** `name ++ " -> " ++ rest` is cut back into `(name, rest)` exactly when
      no separator starts inside `name`. */
  lemma CutAfterName(before: string, after: string)
    ensures CutAtShift(before + ShiftPrefix + after) == Some((before, after))
      <==> !Contains(before + " ", ShiftPrefix)
  {
    if Contains(before + " ", ShiftPrefix) {
      CutInsideName(before, after);
    } else {
      CutAfterShiftFreeName(before, after);
    }
  }

  /** A name missing `-` or `>` cannot hold the start of a separator, so
      `void <init>()` qualifies as well as `int foo()`. */
  lemma NameWithoutArrowIsShiftFree(before: string)
    requires '-' !in before || '>' !in before
    ensures !Contains(before + " ", ShiftPrefix)
  {
    var padded := before + " ";
    forall i | 0 <= i <= |padded| - |ShiftPrefix|
      ensures !OccursAt(padded, ShiftPrefix, i)
    {
      if '-' !in before {
        assert before[i + 1] in before;
        assert padded[i..i + 4][1] == before[i + 1] != ShiftPrefix[1];
      } else {
        assert before[i + 2] in before;
        assert padded[i..i + 4][2] == before[i + 2] != ShiftPrefix[2];
      }
    }
  }

  /** The name before the first separator holds no separator. */
  lemma NameBeforeShiftIsShiftFree(focus: string, before: string, after: string)
    requires SplitsAtFirstShift(focus, before, after)
    ensures !Contains(before, ShiftPrefix)
  {
    forall i | 0 <= i <= |before| - |ShiftPrefix|
      ensures !OccursAt(before, ShiftPrefix, i)
    {
      assert focus[i..i + |ShiftPrefix|] == before[i..i + |ShiftPrefix|];
      assert !OccursAt(focus, ShiftPrefix, i);
    }
  }

  lemma NotInParts(x: char, a: string, b: string, c: string)
    requires x !in a + b + c
    ensures x !in a && x !in c
  {
    assert forall k :: 0 <= k < |a| ==> a[k] == (a + b + c)[k];
    assert forall k :: 0 <= k < |c| ==> c[k] == (a + b + c)[|a| + |b| + k];
  }

  /** `ProguardMethod::deserialize`: keep the text after the last `:`, which
      drops a `start:end:` line-number prefix, and split it at the first
      separator. A line without a prefix keeps its indentation. */
  function MethodDeserialize(line: string): (r: Result<ProguardMethod, ParseError>)
    ensures r.Success? <==> Contains(LastSegment(line, ':'), ShiftPrefix)
    ensures r.Failure? ==> r.error == MissingSeparator(line)
    ensures r.Success? ==>
      SplitsAtFirstShift(LastSegment(line, ':'), r.value.deobfed, r.value.obfed)
    ensures r.Success? ==> ':' !in r.value.deobfed && ':' !in r.value.obfed
  {
    var focus := LastSegment(line, ':');
    match CutAtShift(focus)
    case None => Failure(MissingSeparator(line))
    case Some((deobfed, obfed)) =>
      NotInParts(':', deobfed, ShiftPrefix, obfed);
      Success(ProguardMethod(deobfed, obfed))
  }

  /** `ProguardField::deserialize`: drop the first four characters, whatever
      they are, and split the rest at its first separator. */
  function FieldDeserialize(line: string): (r: Result<ProguardField, ParseError>)
    ensures r.Success? <==> |line| >= |SpacePrefix| && Contains(line[|SpacePrefix|..], ShiftPrefix)
    ensures |line| < |SpacePrefix| ==> r == Failure(ShortFieldLine(line))
    ensures |line| >= |SpacePrefix| && r.Failure? ==> r == Failure(MissingSeparator(line))
    ensures r.Success? ==>
      line == line[..|SpacePrefix|] + r.value.deobfed + ShiftPrefix + r.value.obfed &&
      SplitsAtFirstShift(line[|SpacePrefix|..], r.value.deobfed, r.value.obfed)
  {
    if |line| < |SpacePrefix| then Failure(ShortFieldLine(line))
    else
      var focus := line[|SpacePrefix|..];
      match CutAtShift(focus)
      case None => Failure(MissingSeparator(line))
      case Some((deobfed, obfed)) =>
        assert line == line[..|SpacePrefix|] + focus;
        Success(ProguardField(deobfed, obfed))
  }

  /** A member line is parsed as a method exactly when it holds `(`. */
  predicate IsMethodLine(line: string) {
    Contains(line, "(")
  }

  predicate IsFieldLine(line: string) {
    !IsMethodLine(line)
  }

  /** The member line parses with the parser its kind selects. */
  predicate MemberParses(line: string) {
    if IsMethodLine(line) then MethodDeserialize(line).Success? else FieldDeserialize(line).Success?
  }

  /** One step of the members loop: parse `item` with the parser its kind
      selects and push it onto the matching list. */
  function PushMember(acc: (seq<ProguardField>, seq<ProguardMethod>), item: string):
    (r: Result<(seq<ProguardField>, seq<ProguardMethod>), ParseError>)
    ensures r.Success? <==> MemberParses(item)
    ensures r.Success? ==> |r.value.0| + |r.value.1| == |acc.0| + |acc.1| + 1
  {
    if IsMethodLine(item) then
      match MethodDeserialize(item)
      case Failure(e) => Failure(e)
      case Success(m) => Success((acc.0, acc.1 + [m]))
    else
      match FieldDeserialize(item)
      case Failure(e) => Failure(e)
      case Success(f) => Success((acc.0 + [f], acc.1))
  }

  /** The members loop of `ProguardClass::deserialize` over the lines after
      the header: each line goes to one list, in input order, and the first
      line that does not parse aborts. */
  function ParseMembers(items: seq<string>): (r: Result<(seq<ProguardField>, seq<ProguardMethod>), ParseError>)
    ensures r.Success? ==> |r.value.0| + |r.value.1| == |items|
  {
    if items == [] then Success(([], []))
    else
      var init := items[..|items| - 1];
      match ParseMembers(init)
      case Failure(e) => Failure(e)
      case Success(acc) => PushMember(acc, items[|items| - 1])
  }

  /** The members loop succeeds exactly when every line parses as the
      member it looks like. */
  lemma {:induction false} ParseMembersSucceedsIff(items: seq<string>)
    ensures ParseMembers(items).Success? <==> forall i :: 0 <= i < |items| ==> MemberParses(items[i])
  {
    hide MethodDeserialize, FieldDeserialize, PushMember, MemberParses;
    if items != [] {
      var init := items[..|items| - 1];
      var last := items[|items| - 1];
      ParseMembersSucceedsIff(init);
      if ParseMembers(init).Failure? {
        var i :| 0 <= i < |init| && !MemberParses(init[i]);
        assert items[i] == init[i];
      } else if MemberParses(last) {
        forall i | 0 <= i < |items|
          ensures MemberParses(items[i])
        {
          if i < |init| {
            assert items[i] == init[i];
          }
        }
      }
    }
  }

  /** `ProguardClass::deserialize` as a specification: the first buffered
      line is the header, split at its first separator (the trailing `:`
      stays in `obfed`); the header is checked before any member. */
  function ParseClass(data: seq<string>): (r: Result<ProguardClass, ParseError>)
    ensures data == [] ==> r == Failure(EmptyBlock)
    ensures data != [] && !Contains(data[0], ShiftPrefix) ==> r == Failure(MissingSeparator(data[0]))
    ensures r.Success? ==> SplitsAtFirstShift(data[0], r.value.deobfed, r.value.obfed)
    ensures r.Success? ==> |r.value.fields| + |r.value.methods| == |data| - 1
    ensures r.Success? && data[0][|data[0]| - 1] == ':' ==>
      r.value.obfed != [] && r.value.obfed[|r.value.obfed| - 1] == ':'
  {
    if data == [] then Failure(EmptyBlock)
    else
      match CutAtShift(data[0])
      case None => Failure(MissingSeparator(data[0]))
      case Some((deobfed, obfed)) =>
        match ParseMembers(data[1..])
        case Failure(e) => Failure(e)
        case Success((fields, methods)) => Success(ProguardClass(deobfed, obfed, fields, methods))
  }

  /** A class block parses exactly when it is non-empty, its header holds
      the separator and every later line parses as the member it looks like. */
  lemma ParseClassSucceedsIff(data: seq<string>)
    ensures ParseClass(data).Success? <==>
      data != [] && Contains(data[0], ShiftPrefix) &&
      forall i :: 1 <= i < |data| ==> MemberParses(data[i])
  {
    hide MethodDeserialize, FieldDeserialize;
    if data != [] {
      ParseMembersSucceedsIff(data[1..]);
      assert forall i :: 1 <= i < |data| ==> data[i] == data[1..][i - 1];
    }
  }

  /** The lines that go to each list. */
  function MethodLines(items: seq<string>): seq<string> {
    Filter(items, IsMethodLine)
  }

  function FieldLines(items: seq<string>): seq<string> {
    Filter(items, IsFieldLine)
  }

  /** The members loop keeps input order: `methods` holds the parses of the
      lines with `(`, in order, and `fields` those of the other lines. */
  lemma {:induction false} ParseMembersOrder(items: seq<string>)
    requires ParseMembers(items).Success?
    ensures var (fields, methods) := ParseMembers(items).value;
      && |fields| == |FieldLines(items)|
      && |methods| == |MethodLines(items)|
      && (forall k :: 0 <= k < |fields| ==> FieldDeserialize(FieldLines(items)[k]) == Success(fields[k]))
      && (forall k :: 0 <= k < |methods| ==> MethodDeserialize(MethodLines(items)[k]) == Success(methods[k]))
  {
    hide MethodDeserialize, FieldDeserialize, MemberParses, Contains;
    if items != [] {
      var init := items[..|items| - 1];
      var last := items[|items| - 1];
      ParseMembersOrder(init);
      var (fs, ms) := ParseMembers(init).value;
      assert FieldLines(items) == FieldLines(init) + (if IsFieldLine(last) then [last] else []);
      assert MethodLines(items) == MethodLines(init) + (if IsMethodLine(last) then [last] else []);
      if IsMethodLine(last) {
        assert ParseMembers(items).value == (fs, ms + [MethodDeserialize(last).value]);
      } else {
        assert ParseMembers(items).value == (fs + [FieldDeserialize(last).value], ms);
      }
    }
  }

  /** The lines after the header are split between the two lists, each in
      input order, and the header itself is never parsed as a member. */
  lemma ParseClassMembers(data: seq<string>)
    requires ParseClass(data).Success?
    ensures var c := ParseClass(data).value;
      && |c.fields| == |FieldLines(data[1..])|
      && |c.methods| == |MethodLines(data[1..])|
      && (forall k :: 0 <= k < |c.fields| ==> FieldDeserialize(FieldLines(data[1..])[k]) == Success(c.fields[k]))
      && (forall k :: 0 <= k < |c.methods| ==> MethodDeserialize(MethodLines(data[1..])[k]) == Success(c.methods[k]))
  {
    ParseMembersOrder(data[1..]);
  }

  /** A failure in a prefix of the member lines is the failure of the whole. */
  lemma {:induction false} ParseMembersFailurePersists(items: seq<string>, n: nat)
    requires n <= |items| && ParseMembers(items[..n]).Failure?
    ensures ParseMembers(items) == ParseMembers(items[..n])
    decreases |items| - n
  {
    hide MethodDeserialize, FieldDeserialize;
    if n < |items| {
      assert items[..n + 1][..n] == items[..n];
      ParseMembersFailurePersists(items, n + 1);
    } else {
      assert items[..n] == items;
    }
  }

  /** One more line for the members loop. */
  lemma ParseMembersSnoc(items: seq<string>, i: nat)
    requires i < |items|
    ensures ParseMembers(items[..i + 1]) ==
      match ParseMembers(items[..i])
      case Failure(e) => Failure(e)
      case Success(acc) => PushMember(acc, items[i])
  {
    hide MethodDeserialize, FieldDeserialize, MemberParses, PushMember;
    assert items[..i + 1][..i] == items[..i];
  }

  /** A member line that fails aborts the whole class. */
  lemma ClassFailsAtMember(data: seq<string>, i: nat, e: ParseError)
    requires 1 <= |data| && CutAtShift(data[0]).Some? && i < |data| - 1
    requires ParseMembers(data[1..][..i]).Success?
    requires PushMember(ParseMembers(data[1..][..i]).value, data[1..][i]) == Failure(e)
    ensures ParseClass(data) == Failure(e)
  {
    hide MethodDeserialize, FieldDeserialize, MemberParses, PushMember, Contains, CutAtShift;
    ParseMembersSnoc(data[1..], i);
    ParseMembersFailurePersists(data[1..], i + 1);
    assert data[1..][..|data[1..]|] == data[1..];
  }

  /** `ProguardClass::deserialize`: the `for` loop over the buffered lines
      pushing into `fields` and `methods`. */
  method ClassDeserialize(data: seq<string>) returns (r: Result<ProguardClass, ParseError>)
    ensures r == ParseClass(data)
  {
    hide MethodDeserialize, FieldDeserialize, MemberParses, Contains, CutAtShift;
    if |data| == 0 {
      return Failure(EmptyBlock);
    }
    var cut := CutAtShift(data[0]);
    if cut.None? {
      return Failure(MissingSeparator(data[0]));
    }
    var fields: seq<ProguardField> := [];
    var methods: seq<ProguardMethod> := [];
    var items := data[1..];
    assert ParseMembers(items[..0]) == Success(([], []));
    for i := 0 to |items|
      invariant ParseMembers(items[..i]) == Success((fields, methods))
    {
      var item := items[i];
      ParseMembersSnoc(items, i);
      if IsMethodLine(item) {
        var m := MethodDeserialize(item);
        if m.Failure? {
          ClassFailsAtMember(data, i, m.error);
          return Failure(m.error);
        }
        methods := methods + [m.value];
      } else {
        var f := FieldDeserialize(item);
        if f.Failure? {
          ClassFailsAtMember(data, i, f.error);
          return Failure(f.error);
        }
        fields := fields + [f.value];
      }
    }
    assert items[..|items|] == items;
    r := Success(ProguardClass(cut.value.0, cut.value.1, fields, methods));
  }

  /** `ProguardMethod::copy`: fresh strings built with `push_str`. */
  method MethodCopy(m: ProguardMethod) returns (r: ProguardMethod)
    ensures r == m
  {
    var deobfed: string := [];
    var obfed: string := [];
    deobfed := deobfed + m.deobfed;
    obfed := obfed + m.obfed;
    r := ProguardMethod(deobfed, obfed);
  }

  /** `ProguardField::copy` */
  method FieldCopy(f: ProguardField) returns (r: ProguardField)
    ensures r == f
  {
    var deobfed: string := [];
    var obfed: string := [];
    deobfed := deobfed + f.deobfed;
    obfed := obfed + f.obfed;
    r := ProguardField(deobfed, obfed);
  }

  /** `ProguardClass::copy`: copies the names and pushes a copy of every
      field and method, in order. */
  method ClassCopy(c: ProguardClass) returns (r: ProguardClass)
    ensures r == c
  {
    var deobfed: string := [];
    var obfed: string := [];
    deobfed := deobfed + c.deobfed;
    obfed := obfed + c.obfed;
    var fields: seq<ProguardField> := [];
    for i := 0 to |c.fields|
      invariant fields == c.fields[..i]
    {
      var f := FieldCopy(c.fields[i]);
      fields := fields + [f];
    }
    var methods: seq<ProguardMethod> := [];
    for i := 0 to |c.methods|
      invariant methods == c.methods[..i]
    {
      var m := MethodCopy(c.methods[i]);
      methods := methods + [m];
    }
    r := ProguardClass(deobfed, obfed, fields, methods);
  }

  /** Round trip of a method line written with a line-number prefix:
      whatever precedes the last `:` is dropped, and a name in which no
      separator starts is cut at the separator that follows it. */
  lemma NumberedMethodLineParses(prefix: string, deobfed: string, obfed: string)
    requires ':' !in deobfed && ':' !in obfed && !Contains(deobfed + " ", ShiftPrefix)
    ensures MethodDeserialize(prefix + [':'] + deobfed + ShiftPrefix + obfed)
      == Success(ProguardMethod(deobfed, obfed))
  {
    hide CutAtShift, Contains, SplitsAtFirstShift;
    var focus := deobfed + ShiftPrefix + obfed;
    assert prefix + [':'] + deobfed + ShiftPrefix + obfed == prefix + [':'] + focus;
    NotInParts(':', deobfed, ShiftPrefix, obfed) by {
      assert ':' !in deobfed + ShiftPrefix + obfed;
    }
    LastSegmentAfterSep(prefix, ':', focus);
    CutAfterShiftFreeName(deobfed, obfed);
  }

  /** Round trip of a method line without a line-number prefix: nothing is
      dropped, so the indentation stays part of `deobfed`. */
  lemma UnnumberedMethodLineParses(deobfed: string, obfed: string)
    requires ':' !in deobfed && ':' !in obfed && !Contains(deobfed + " ", ShiftPrefix)
    ensures MethodDeserialize(deobfed + ShiftPrefix + obfed)
      == Success(ProguardMethod(deobfed, obfed))
  {
    hide CutAtShift, Contains, SplitsAtFirstShift;
    var focus := deobfed + ShiftPrefix + obfed;
    assert ':' !in focus;
    LastSegmentWithoutSep(focus, ':');
    CutAfterShiftFreeName(deobfed, obfed);
  }

  /** Round trip of a field line: any four leading characters are dropped. */
  lemma FieldLineParses(indent: string, deobfed: string, obfed: string)
    requires |indent| == |SpacePrefix| && !Contains(deobfed + " ", ShiftPrefix)
    ensures FieldDeserialize(indent + deobfed + ShiftPrefix + obfed)
      == Success(ProguardField(deobfed, obfed))
  {
    hide CutAtShift, Contains, SplitsAtFirstShift;
    var line := indent + deobfed + ShiftPrefix + obfed;
    assert line[|SpacePrefix|..] == deobfed + ShiftPrefix + obfed;
    CutAfterShiftFreeName(deobfed, obfed);
  }

  /** The line `5:9:void baz() -> c` loses its line numbers. */
  lemma NumberedMethodLineExample()
    // the line 5:9:void baz() -> c
    ensures MethodDeserialize("5:9:" + "void baz()" + ShiftPrefix + "c")
      == Success(ProguardMethod("void baz()", "c"))
  {
    hide MethodDeserialize, Contains;
    NameWithoutArrowIsShiftFree("void baz()");
    NumberedMethodLineParses("5:9", "void baz()", "c");
    assert "5:9" + [':'] == "5:9:";
  }

  /** A constructor line: `<init>` holds a `>` but no `-`, and the line
      parses like any other. */
  lemma ConstructorLineExample()
    // the line 1:1:void <init>() -> <init>
    ensures MethodDeserialize("1:1:" + "void <init>()" + ShiftPrefix + "<init>")
      == Success(ProguardMethod("void <init>()", "<init>"))
  {
    hide MethodDeserialize, Contains;
    NameWithoutArrowIsShiftFree("void <init>()");
    NumberedMethodLineParses("1:1", "void <init>()", "<init>");
    assert "1:1" + [':'] == "1:1:";
  }

  /** The line `    int foo() -> a` keeps its indentation. */
  lemma IndentedMethodLineExample()
    // the line "    int foo() -> a" (four leading spaces)
    ensures MethodDeserialize("    int foo()" + ShiftPrefix + "a")
      == Success(ProguardMethod("    int foo()", "a"))
  {
    hide MethodDeserialize, Contains;
    NameWithoutArrowIsShiftFree("    int foo()");
    UnnumberedMethodLineParses("    int foo()", "a");
  }

  /** A field line under four characters, or whose separator is not wholly
      after its first four characters, does not parse. */
  lemma FieldLineExamples()
    ensures FieldDeserialize("  x") == Failure(ShortFieldLine("  x"))
    ensures FieldDeserialize("a -> b") == Failure(MissingSeparator("a -> b"))
  {
    assert "a -> b"[4..] == " b";
  }
}
