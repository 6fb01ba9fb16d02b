// Field paths: `field`, `field.sub`, `field[N]`, joined.
module Paths {
  import opened Results
  import opened Text

  const USIZE_LIMIT: nat := 0x1_0000_0000_0000_0000

  datatype Segment = Key(name: string) | At(index: nat)

  datatype FieldPath = FieldPath(segments: seq<Segment>) {
    function SimpleName(): Option<string> {
      if |segments| == 1 && segments[0].Key? then Some(segments[0].name) else None
    }
  }

  predicate IsIdentStart(c: char) {
    IsAlpha(c) || c == '_'
  }

  predicate IsIdentContinue(c: char) {
    IsAlpha(c) || IsDigit(c) || c == '_'
  }

  predicate IsIdent(name: string) {
    name != "" && IsIdentStart(name[0]) && forall i :: 0 <= i < |name| ==> IsIdentContinue(name[i])
  }

  predicate WellFormedSegment(s: Segment) {
    match s
    case Key(name) => IsIdent(name)
    case At(index) => index < USIZE_LIMIT
  }

  predicate WellFormedSegments(segments: seq<Segment>) {
    forall i :: 0 <= i < |segments| ==> WellFormedSegment(segments[i])
  }

  predicate WellFormed(p: FieldPath) {
    p.segments != [] && WellFormedSegments(p.segments)
  }

  // ---------------------------------------------------------------------
  // What the parser computes, as functions.
  // ---------------------------------------------------------------------

  predicate HasDotDot(s: string) {
    exists i :: 0 <= i < |s| - 1 && s[i] == '.' && s[i + 1] == '.'
  }

  predicate LooksLikeJsonPath(s: string) {
    StartsWith(s, '$') || HasDotDot(s) || Has(s, '?') || Has(s, '@') || Has(s, '*') || Has(s, '\'') || Has(s, '"')
  }

  // Length of the leading run of identifier characters.
  function IdentRun(s: string): (n: nat)
    ensures n <= |s| && (forall i :: 0 <= i < n ==> IsIdentContinue(s[i]))
    ensures n < |s| ==> !IsIdentContinue(s[n])
  {
    if s == "" || !IsIdentContinue(s[0]) then 0 else
      var n := IdentRun(s[1..]);
      assert forall i :: 0 < i <= n ==> s[i] == s[1..][i - 1];
      1 + n
  }

  function SkipDotOrKeep(after: string): Result<string> {
    if after == "" || after[0] == '[' then Ok(after)
    else if after[0] == '.' then
      if after[1..] == "" then PlanError("invalid_path") else Ok(after[1..])
    else PlanError("invalid_path")
  }

  function ParseIdent(rest: string): Result<(Segment, string)> {
    if rest == "" || !IsIdentStart(rest[0]) then PlanError("invalid_path") else
      var n := IdentRun(rest);
      var after :- SkipDotOrKeep(rest[n..]);
      Ok((Key(rest[..n]), after))
  }

  function ParseIndex(rest: string): Result<(Segment, string)>
    requires StartsWith(rest, '[')
  {
    match IndexOf(rest, ']')
    case None => PlanError("invalid_path")
    case Some(close) =>
      var inner := rest[1..close];
      if inner == "" || (|inner| > 1 && inner[0] == '0') then PlanError("invalid_path")
      else if !AllDigits(inner) then PlanError("invalid_path")
      else if DigitsValue(inner) >= USIZE_LIMIT then PlanError("invalid_path")
      else
        var after :- SkipDotOrKeep(rest[close + 1..]);
        Ok((At(DigitsValue(inner)), after))
  }

  function ParseOne(rest: string): (r: Result<(Segment, string)>)
    ensures r.Ok? ==> |r.value.1| < |rest| && WellFormedSegment(r.value.0)
  {
    if StartsWith(rest, '[') then ParseIndex(rest) else
      assert rest != "" && IsIdentStart(rest[0]) ==> IdentRun(rest) > 0;
      ParseIdent(rest)
  }

  function SegmentsOf(rest: string): Result<seq<Segment>>
    decreases |rest|
  {
    if rest == "" then Ok([]) else
      var (first, after) :- ParseOne(rest);
      var others :- SegmentsOf(after);
      Ok([first] + others)
  }

  function Parse(input: string): Result<FieldPath> {
    if LooksLikeJsonPath(input) then PlanError("jsonpath_forbidden") else
      var segments :- SegmentsOf(input);
      if segments == [] then PlanError("empty_path") else Ok(FieldPath(segments))
  }

  function SegmentText(s: Segment): string {
    match s
    case Key(name) => name
    case At(index) => "[" + NatText(index) + "]"
  }

  // A dot goes in front of a field unless nothing was written yet.
  function RenderSegments(segments: seq<Segment>): string {
    if segments == [] then "" else
      var last := segments[|segments| - 1];
      var out := RenderSegments(segments[..|segments| - 1]);
      out + (if last.Key? && out != "" then "." else "") + SegmentText(last)
  }

  function Render(p: FieldPath): string {
    RenderSegments(p.segments)
  }

  // ---------------------------------------------------------------------
  // The loops of the parser and the printer.
  // ---------------------------------------------------------------------

  method IdentLen(rest: string) returns (r: Result<nat>)
    ensures r.Err? <==> rest == "" || !IsIdentStart(rest[0])
    ensures r.Ok? ==> r.value == IdentRun(rest)
    ensures r.Err? ==> r == PlanError("invalid_path")
  {
    if rest == "" || !IsIdentStart(rest[0]) {
      return PlanError("invalid_path");
    }
    var len := 1;
    while len < |rest| && IsIdentContinue(rest[len])
      invariant 1 <= len <= |rest|
      invariant IdentRun(rest) == len + IdentRun(rest[len..])
    {
      assert rest[len..][1..] == rest[len + 1..];
      len := len + 1;
    }
    return Ok(len);
  }

  method ParseOneStep(rest: string, segments: seq<Segment>) returns (r: Result<(string, seq<Segment>)>)
    ensures ParseOne(rest).Err? ==> r == Err(ParseOne(rest).error)
    ensures ParseOne(rest).Ok? ==> r == Ok((ParseOne(rest).value.1, segments + [ParseOne(rest).value.0]))
  {
    if StartsWith(rest, '[') {
      var parsed := ParseIndex(rest);
      if parsed.Err? {
        return Err(parsed.error);
      }
      return Ok((parsed.value.1, segments + [parsed.value.0]));
    }
    var len := IdentLen(rest);
    if len.Err? {
      return Err(len.error);
    }
    var after := SkipDotOrKeep(rest[len.value..]);
    if after.Err? {
      return Err(after.error);
    }
    return Ok((after.value, segments + [Key(rest[..len.value])]));
  }

  method ParseSegments(input: string) returns (r: Result<seq<Segment>>)
    ensures r == SegmentsOf(input)
  {
    var segments: seq<Segment> := [];
    var rest := input;
    assert Prefixed([], SegmentsOf(input)) == SegmentsOf(input) by {
      if SegmentsOf(input).Ok? { assert [] + SegmentsOf(input).value == SegmentsOf(input).value; }
    }
    while rest != ""
      invariant SegmentsOf(input) == Prefixed(segments, SegmentsOf(rest))
      decreases |rest|
    {
      PrefixedStep(segments, rest);
      var step := ParseOneStep(rest, segments);
      if step.Err? {
        return Err(step.error);
      }
      rest, segments := step.value.0, step.value.1;
    }
    assert segments + [] == segments;
    return Ok(segments);
  }

  // A parse result behind segments that were already collected.
  ghost function Prefixed(done: seq<Segment>, r: Result<seq<Segment>>): Result<seq<Segment>> {
    match r
    case Ok(others) => Ok(done + others)
    case Err(e) => Err(e)
  }

  lemma PrefixedStep(done: seq<Segment>, rest: string)
    requires rest != ""
    ensures ParseOne(rest).Err? ==> Prefixed(done, SegmentsOf(rest)) == Err(ParseOne(rest).error)
    ensures ParseOne(rest).Ok? ==>
              Prefixed(done, SegmentsOf(rest)) == Prefixed(done + [ParseOne(rest).value.0], SegmentsOf(ParseOne(rest).value.1))
  {
    var first := ParseOne(rest);
    if first.Ok? {
      var others := SegmentsOf(first.value.1);
      if others.Ok? {
        assert done + ([first.value.0] + others.value) == done + [first.value.0] + others.value;
      }
    }
  }

  method ParsePath(input: string) returns (r: Result<FieldPath>)
    ensures r == Parse(input)
  {
    if LooksLikeJsonPath(input) {
      return PlanError("jsonpath_forbidden");
    }
    var segments := ParseSegments(input);
    if segments.Err? {
      return Err(segments.error);
    }
    if segments.value == [] {
      return PlanError("empty_path");
    }
    return Ok(FieldPath(segments.value));
  }

  method RenderPath(segments: seq<Segment>) returns (out: string)
    ensures out == RenderSegments(segments)
  {
    out := "";
    for i := 0 to |segments|
      invariant out == RenderSegments(segments[..i])
    {
      assert segments[..i + 1][..i] == segments[..i];
      match segments[i] {
        case Key(name) =>
          if out != "" {
            out := out + ".";
          }
          out := out + name;
        case At(index) =>
          out := out + "[";
          out := out + NatText(index);
          out := out + "]";
      }
    }
    assert segments[..|segments|] == segments;
  }

  // ---------------------------------------------------------------------
  // Round trip.
  // ---------------------------------------------------------------------

  // The text after a segment that has already been written.
  ghost function Tail(segments: seq<Segment>): string
    decreases |segments|, 1
  {
    if segments == [] then ""
    else if segments[0].Key? then "." + Body(segments)
    else Body(segments)
  }

  ghost function Body(segments: seq<Segment>): string
    decreases |segments|, 0
  {
    if segments == [] then "" else SegmentText(segments[0]) + Tail(segments[1..])
  }

  lemma SegmentTextNonempty(s: Segment)
    requires WellFormedSegment(s)
    ensures SegmentText(s) != ""
  {
  }

  // The text one more segment adds behind a path.
  ghost function Piece(s: Segment): string {
    (if s.Key? then "." else "") + SegmentText(s)
  }

  lemma PieceInFront(first: string, middle: string, last: string)
    ensures first + (middle + last) == (first + middle) + last
  {
  }

  lemma TailUnfolds(segments: seq<Segment>)
    requires segments != []
    ensures Tail(segments) == Piece(segments[0]) + Tail(segments[1..])
  {
    var s, rest := segments[0], Tail(segments[1..]);
    PieceInFront(if s.Key? then "." else "", SegmentText(s), rest);
    assert "" + Body(segments) == Body(segments);
  }

  lemma {:induction false} TailSnoc(segments: seq<Segment>, last: Segment)
    ensures Tail(segments + [last]) == Tail(segments) + Piece(last)
  {
    if segments == [] {
      assert segments + [last] == [last] && [last][1..] == [];
      TailUnfolds([last]);
      assert Piece(last) + "" == Piece(last) == "" + Piece(last);
    } else {
      assert (segments + [last])[1..] == segments[1..] + [last];
      TailUnfolds(segments);
      TailUnfolds(segments + [last]);
      TailSnoc(segments[1..], last);
      PieceInFront(Piece(segments[0]), Tail(segments[1..]), Piece(last));
    }
  }

  lemma BodySnoc(segments: seq<Segment>, last: Segment)
    requires segments != []
    ensures Body(segments + [last]) == Body(segments) + (if last.Key? then "." else "") + SegmentText(last)
  {
    assert (segments + [last])[1..] == segments[1..] + [last];
    TailSnoc(segments[1..], last);
    PieceInFront(SegmentText(segments[0]), Tail(segments[1..]), Piece(last));
    PieceInFront(Body(segments), if last.Key? then "." else "", SegmentText(last));
  }

  lemma BodyNonempty(segments: seq<Segment>)
    requires WellFormedSegments(segments) && segments != []
    ensures Body(segments) != ""
  {
    SegmentTextNonempty(segments[0]);
    assert |Body(segments)| >= |SegmentText(segments[0])|;
  }

  lemma {:induction false} RenderIsBody(segments: seq<Segment>)
    requires WellFormedSegments(segments)
    ensures RenderSegments(segments) == Body(segments)
  {
    if segments != [] {
      var front, last := segments[..|segments| - 1], segments[|segments| - 1];
      RenderIsBody(front);
      assert segments == front + [last];
      if front == [] {
        assert Tail(segments[1..]) == "";
      } else {
        BodyNonempty(front);
        BodySnoc(front, last);
      }
    }
  }

  lemma SkipDot(body: string)
    requires body != ""
    ensures SkipDotOrKeep("." + body) == Ok(body)
  {
    assert ("." + body)[1..] == body;
  }

  lemma SkipTail(segments: seq<Segment>)
    requires WellFormedSegments(segments)
    ensures SkipDotOrKeep(Tail(segments)) == Ok(Body(segments))
  {
    if segments != [] {
      BodyNonempty(segments);
      if segments[0].Key? {
        SkipDot(Body(segments));
      } else {
        assert SegmentText(segments[0])[0] == '[';
      }
    }
  }

  lemma {:induction false} IdentRunOf(name: string, rest: string)
    requires forall i :: 0 <= i < |name| ==> IsIdentContinue(name[i])
    requires rest == "" || !IsIdentContinue(rest[0])
    ensures IdentRun(name + rest) == |name|
  {
    if name == "" {
      assert name + rest == rest;
    } else {
      assert (name + rest)[1..] == name[1..] + rest;
      IdentRunOf(name[1..], rest);
    }
  }

  lemma ParseFieldText(name: string, tail: string, after: string)
    requires IsIdent(name)
    requires tail == "" || tail[0] == '.' || tail[0] == '['
    requires SkipDotOrKeep(tail) == Ok(after)
    ensures ParseOne(name + tail) == Ok((Key(name), after))
  {
    var text := name + tail;
    IdentRunOf(name, tail);
    assert text[0] == name[0];
    assert text[..|name|] == name && text[|name|..] == tail;
  }

  lemma FirstBracket(digits: string, tail: string)
    requires AllDigits(digits)
    ensures IndexOf("[" + digits + "]" + tail, ']') == Some(1 + |digits|)
  {
    var text, close := "[" + digits + "]" + tail, 1 + |digits|;
    assert text[close] == ']';
    assert forall j :: 0 <= j < close ==> text[j] != ']';
    assert Has(text, ']');
  }

  lemma ParseIndexText(index: nat, tail: string, after: string)
    requires index < USIZE_LIMIT
    requires SkipDotOrKeep(tail) == Ok(after)
    ensures ParseOne(SegmentText(At(index)) + tail) == Ok((At(index), after))
  {
    var digits := NatText(index);
    var text, close := "[" + digits + "]" + tail, 1 + |digits|;
    NatTextValue(index);
    FirstBracket(digits, tail);
    assert text[0] == '[';
    assert text[1..close] == digits && text[close + 1..] == tail;
    assert ParseIndex(text) == Ok((At(index), after));
  }

  lemma ParseOneOfText(s: Segment, rest: seq<Segment>)
    requires WellFormedSegment(s) && WellFormedSegments(rest)
    ensures ParseOne(SegmentText(s) + Tail(rest)) == Ok((s, Body(rest)))
  {
    SkipTail(rest);
    match s {
      case Key(name) =>
        assert rest != [] && rest[0].At? ==> SegmentText(rest[0])[0] == '[';
        ParseFieldText(name, Tail(rest), Body(rest));
      case At(index) =>
        ParseIndexText(index, Tail(rest), Body(rest));
    }
  }

  lemma ParseOneOfBody(segments: seq<Segment>)
    requires WellFormedSegments(segments) && segments != []
    ensures Body(segments) != "" && ParseOne(Body(segments)) == Ok((segments[0], Body(segments[1..])))
  {
    BodyNonempty(segments);
    ParseOneOfText(segments[0], segments[1..]);
  }

  // One step of the segment parser.
  lemma SegmentsUnfold(text: string, segments: seq<Segment>, after: string)
    requires text != "" && segments != [] && ParseOne(text) == Ok((segments[0], after))
    requires SegmentsOf(after) == Ok(segments[1..])
    ensures SegmentsOf(text) == Ok(segments)
  {
    assert segments == [segments[0]] + segments[1..];
  }

  lemma {:induction false} SegmentsOfBody(segments: seq<Segment>)
    requires WellFormedSegments(segments)
    ensures SegmentsOf(Body(segments)) == Ok(segments)
  {
    if segments == [] {
      assert Body(segments) == "";
    } else {
      ParseOneOfBody(segments);
      SegmentsOfBody(segments[1..]);
      SegmentsUnfold(Body(segments), segments, Body(segments[1..]));
    }
  }

  predicate PathChar(c: char) {
    IsIdentContinue(c) || c == '.' || c == '[' || c == ']'
  }

  lemma {:induction false} TailIsClean(segments: seq<Segment>)
    requires WellFormedSegments(segments)
    ensures forall i :: 0 <= i < |Tail(segments)| ==> PathChar(Tail(segments)[i])
    ensures !HasDotDot(Tail(segments))
  {
    if segments != [] {
      TailIsClean(segments[1..]);
      var s, tail := SegmentText(segments[0]), Tail(segments[1..]);
      SegmentTextNonempty(segments[0]);
      SegmentIsClean(segments[0]);
      assert s + tail == Body(segments);
      assert !HasDotDot(s + tail);
    }
  }

  lemma SegmentIsClean(s: Segment)
    requires WellFormedSegment(s)
    ensures forall i :: 0 <= i < |SegmentText(s)| ==> PathChar(SegmentText(s)[i]) && SegmentText(s)[i] != '.'
  {
    if s.At? {
      NatTextValue(s.index);
    }
  }

  lemma RenderIsNotJsonPath(p: FieldPath)
    requires WellFormed(p)
    ensures !LooksLikeJsonPath(Render(p))
  {
    RenderIsBody(p.segments);
    SegmentIsClean(p.segments[0]);
    TailIsClean(p.segments[1..]);
    CleanJoin(SegmentText(p.segments[0]), Tail(p.segments[1..]));
    SegmentTextNonempty(p.segments[0]);
  }

  lemma CleanJoin(s: string, tail: string)
    requires s != "" && !HasDotDot(tail)
    requires forall i :: 0 <= i < |s| ==> PathChar(s[i]) && s[i] != '.'
    requires forall i :: 0 <= i < |tail| ==> PathChar(tail[i])
    ensures !LooksLikeJsonPath(s + tail)
  {
    var text := s + tail;
    assert text[0] == s[0];
    forall i | 0 <= i < |text| - 1 ensures !(text[i] == '.' && text[i + 1] == '.') {
      assert i >= |s| ==> text[i] == tail[i - |s|] && text[i + 1] == tail[i - |s| + 1];
    }
  }

  // Every well-formed path survives printing and parsing.
  lemma RenderThenParse(p: FieldPath)
    requires WellFormed(p)
    ensures Parse(Render(p)) == Ok(p)
  {
    RenderIsNotJsonPath(p);
    RenderIsBody(p.segments);
    SegmentsOfBody(p.segments);
  }

  lemma {:induction false} ParsedSegmentsWellFormed(rest: string)
    requires SegmentsOf(rest).Ok?
    ensures WellFormedSegments(SegmentsOf(rest).value)
    decreases |rest|
  {
    if rest != "" {
      ParsedSegmentsWellFormed(ParseOne(rest).value.1);
    }
  }

  // Whatever parses is well formed and is a fixed point of print-then-parse.
  lemma ParseThenRender(input: string)
    requires Parse(input).Ok?
    ensures WellFormed(Parse(input).value)
    ensures Parse(Render(Parse(input).value)) == Parse(input)
  {
    ParsedSegmentsWellFormed(input);
    RenderThenParse(Parse(input).value);
  }

  // The parsable texts are exactly those that name a well-formed path.
  lemma ParseImage(p: FieldPath)
    ensures WellFormed(p) <==> exists input :: Parse(input) == Ok(p)
  {
    if WellFormed(p) {
      RenderThenParse(p);
    }
    if exists input :: Parse(input) == Ok(p) {
      var input :| Parse(input) == Ok(p);
      ParseThenRender(input);
    }
  }

  // ---------------------------------------------------------------------
  // Dotted names, as the planner joins them.
  // ---------------------------------------------------------------------

  function JoinPath(prefix: string, field: string): string {
    if prefix == "" then field else prefix + "." + field
  }

  function JoinNames(names: seq<string>): string {
    if names == [] then "" else JoinPath(JoinNames(names[..|names| - 1]), names[|names| - 1])
  }

  function FieldSegments(names: seq<string>): (segments: seq<Segment>)
    ensures |segments| == |names| && forall i :: 0 <= i < |names| ==> segments[i] == Key(names[i])
  {
    seq(|names|, i requires 0 <= i < |names| => Key(names[i]))
  }

  predicate AllIdents(names: seq<string>) {
    forall i :: 0 <= i < |names| ==> IsIdent(names[i])
  }

  lemma {:induction false} JoinNamesRenders(names: seq<string>)
    ensures JoinNames(names) == RenderSegments(FieldSegments(names))
  {
    if names != [] {
      JoinNamesRenders(names[..|names| - 1]);
      assert FieldSegments(names)[..|names| - 1] == FieldSegments(names[..|names| - 1]);
    }
  }

  // A chain of joined identifiers parses back to exactly those fields.
  lemma JoinedNamesParse(names: seq<string>)
    requires names != [] && AllIdents(names)
    ensures Parse(JoinNames(names)) == Ok(FieldPath(FieldSegments(names)))
  {
    JoinNamesRenders(names);
    RenderThenParse(FieldPath(FieldSegments(names)));
  }

  lemma JoinNamesInjective(a: seq<string>, b: seq<string>)
    requires a != [] && b != [] && AllIdents(a) && AllIdents(b)
    requires JoinNames(a) == JoinNames(b)
    ensures a == b
  {
    JoinedNamesParse(a);
    JoinedNamesParse(b);
    assert FieldSegments(a) == FieldSegments(b);
    forall i | 0 <= i < |a| ensures a[i] == b[i] {
      assert FieldSegments(a)[i] == FieldSegments(b)[i];
    }
  }
}
