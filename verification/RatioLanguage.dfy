/** The ratio language of mixed bot runs, such as `normal:40,spammer:20`: its parser and its printer. */
module RatioLanguage {
  import opened Wrappers
  import opened Bots

  datatype ParseError =
    | EmptySpec
    | BadFormat(part: string)
    | UnknownType(name: string)
    | BadNumber(digits: string)
    | ZeroRatio(name: string)

  // ---- String operations of the standard library ----

  /** Unicode White_Space. */
  predicate IsWhitespace(c: char) {
    || '\t' <= c <= '\r'
    || c == ' '
    || c == '\U{0085}'
    || c == '\U{00A0}'
    || c == '\U{1680}'
    || '\U{2000}' <= c <= '\U{200A}'
    || c == '\U{2028}'
    || c == '\U{2029}'
    || c == '\U{202F}'
    || c == '\U{205F}'
    || c == '\U{3000}'
  }

  function TrimStart(s: string): string {
    if s != [] && IsWhitespace(s[0]) then TrimStart(s[1..]) else s
  }

  function TrimEnd(s: string): string {
    if s != [] && IsWhitespace(s[|s| - 1]) then TrimEnd(s[..|s| - 1]) else s
  }

  function Trim(s: string): string {
    TrimEnd(TrimStart(s))
  }

  /** The index of the first `c`, or the length if there is none. */
  function Find(s: string, c: char): (p: nat)
    ensures p <= |s| && (p < |s| ==> s[p] == c)
  {
    if s == [] || s[0] == c then 0 else 1 + Find(s[1..], c)
  }

  function Split(s: string, c: char): seq<string>
    decreases |s|
  {
    var p := Find(s, c);
    if p < |s| then [s[..p]] + Split(s[p + 1..], c) else [s]
  }

  function Join(parts: seq<string>, c: char): string {
    if parts == [] then []
    else if |parts| == 1 then parts[0]
    else parts[0] + [c] + Join(parts[1..], c)
  }

  predicate IsDigit(c: char) {
    '0' <= c <= '9'
  }

  predicate AllDigits(s: string) {
    forall i :: 0 <= i < |s| ==> IsDigit(s[i])
  }

  function Value(digits: string): nat
    requires AllDigits(digits)
  {
    if digits == [] then 0
    else
      var last := digits[|digits| - 1];
      assert IsDigit(last);
      10 * Value(digits[..|digits| - 1]) + (last as int - '0' as int)
  }

  /** `str::parse::<u32>`: an optional plus sign, then at least one digit, and no overflow. */
  function ParseU32(s: string): Option<u32> {
    var digits := if |s| > 1 && s[0] == '+' then s[1..] else s;
    if digits == [] || !AllDigits(digits) then None
    else if Value(digits) >= U32_LIMIT then None
    else Some(Value(digits))
  }

  function Decimal(n: nat): string {
    var last := [('0' as int + n % 10) as char];
    if n < 10 then last else Decimal(n / 10) + last
  }

  // ---- Parser and printer ----

  /** A part that has been trimmed. */
  function ReadPart(part: string): Result<Entry, ParseError> {
    var colon := Find(part, ':');
    if colon == |part| then Failure(BadFormat(part))
    else
      var name := Trim(part[..colon]);
      var digits := Trim(part[colon + 1..]);
      var kind := FromStr(name);
      if kind.None? then Failure(UnknownType(name))
      else
        var ratio := ParseU32(digits);
        if ratio.None? then Failure(BadNumber(digits))
        else if ratio.value == 0 then Failure(ZeroRatio(name))
        else Success(Entry(kind.value, ratio.value))
  }

  function ParsePart(raw: string): Result<Entry, ParseError> {
    ReadPart(Trim(raw))
  }

  /** All parts in order; the first bad part decides the error. */
  function ParseParts(parts: seq<string>): Result<seq<Entry>, ParseError> {
    if parts == [] then Success([])
    else
      var first := ParsePart(parts[0]);
      if first.Failure? then Failure(first.error)
      else
        var rest := ParseParts(parts[1..]);
        if rest.Failure? then rest else Success([first.value] + rest.value)
  }

  function ParseSpec(s: string): Result<seq<Entry>, ParseError> {
    var t := Trim(s);
    if t == [] then Failure(EmptySpec) else ParseParts(Split(t, ','))
  }

  /** What the parts read so far and the parts still to be read make together. */
  function Continue(entries: seq<Entry>, rest: Result<seq<Entry>, ParseError>): Result<seq<Entry>, ParseError> {
    if rest.Failure? then rest else Success(entries + rest.value)
  }

  lemma ContinueFromNothing(rest: Result<seq<Entry>, ParseError>)
    ensures Continue([], rest) == rest
  {
    if rest.Success? {
      assert [] + rest.value == rest.value;
    }
  }

  lemma ContinueOne(entries: seq<Entry>, parts: seq<string>, i: nat)
    requires i < |parts|
    ensures
      var first := ParsePart(parts[i]);
      Continue(entries, ParseParts(parts[i..])) ==
      if first.Failure? then Failure(first.error)
      else Continue(entries + [first.value], ParseParts(parts[i + 1..]))
  {
    var first, rest := ParsePart(parts[i]), ParseParts(parts[i + 1..]);
    assert parts[i..][0] == parts[i] && parts[i..][1..] == parts[i + 1..];
    if first.Success? && rest.Success? {
      assert entries + ([first.value] + rest.value) == entries + [first.value] + rest.value;
    }
  }

  /** Parses part by part, stopping at the first error. */
  method Parse(s: string) returns (r: Result<seq<Entry>, ParseError>)
    ensures r == ParseSpec(s)
  {
    var t := Trim(s);
    if t == [] {
      return Failure(EmptySpec);
    }
    var entries: seq<Entry> := [];
    var parts := Split(t, ',');
    assert parts[0..] == parts;
    ContinueFromNothing(ParseParts(parts));
    for i := 0 to |parts|
      invariant ParseParts(parts) == Continue(entries, ParseParts(parts[i..]))
    {
      ContinueOne(entries, parts, i);
      var entry := ParsePart(parts[i]);
      if entry.Failure? {
        return Failure(entry.error);
      }
      entries := entries + [entry.value];
    }
    assert parts[|parts|..] == [] && entries + [] == entries;
    return Success(entries);
  }

  function PrintEntry(e: Entry): string {
    AsStr(e.kind) + ":" + Decimal(e.ratio)
  }

  function PrintEntries(spec: seq<Entry>): seq<string> {
    seq(|spec|, i requires 0 <= i < |spec| => PrintEntry(spec[i]))
  }

  function Print(spec: seq<Entry>): string {
    Join(PrintEntries(spec), ',')
  }

  // ---- Inverse lemmas ----

  /** No whitespace and no comma. */
  predicate Plain(s: string) {
    forall i :: 0 <= i < |s| ==> !IsWhitespace(s[i]) && s[i] != ','
  }

  lemma TrimPlain(s: string)
    requires forall i :: 0 <= i < |s| ==> !IsWhitespace(s[i])
    ensures Trim(s) == s
  {
  }

  lemma {:induction false} FindIn(a: string, c: char, b: string)
    requires c !in a
    ensures Find(a + [c] + b, c) == |a|
    decreases |a|
  {
    if a == [] {
    } else {
      assert (a + [c] + b)[1..] == a[1..] + [c] + b;
      FindIn(a[1..], c, b);
    }
  }

  lemma {:induction false} FindNone(a: string, c: char)
    requires c !in a
    ensures Find(a, c) == |a|
    decreases |a|
  {
    if a == [] {
    } else {
      FindNone(a[1..], c);
    }
  }

  lemma {:induction false} SplitJoin(parts: seq<string>, c: char)
    requires parts != [] && forall i :: 0 <= i < |parts| ==> c !in parts[i]
    ensures Split(Join(parts, c), c) == parts
    decreases |parts|
  {
    var p := parts[0];
    if |parts| == 1 {
      FindNone(p, c);
    } else {
      var rest := Join(parts[1..], c);
      FindIn(p, c, rest);
      var s := p + [c] + rest;
      assert s[..|p|] == p && s[|p| + 1..] == rest;
      SplitJoin(parts[1..], c);
    }
  }

  lemma {:induction false} DecimalDigits(n: nat)
    ensures Decimal(n) != [] && forall i :: 0 <= i < |Decimal(n)| ==> IsDigit(Decimal(n)[i])
    decreases n
  {
    if n < 10 {
    } else {
      DecimalDigits(n / 10);
    }
  }

  lemma {:induction false} DecimalValue(n: nat)
    ensures forall i :: 0 <= i < |Decimal(n)| ==> IsDigit(Decimal(n)[i])
    ensures Value(Decimal(n)) == n
    decreases n
  {
    DecimalDigits(n);
    var s := Decimal(n);
    var front := s[..|s| - 1];
    if n < 10 {
      assert front == [];
    } else {
      DecimalValue(n / 10);
      assert front == Decimal(n / 10);
    }
  }

  /** The decimals that are read are those below 2 to the power of 32. */
  lemma ParseDecimal(n: nat)
    ensures ParseU32(Decimal(n)) == if n < 4294967296 then Some(n) else None
  {
    DecimalDigits(n);
    DecimalValue(n);
  }

  lemma NamesRoundTrip(kind: BotType)
    ensures FromStr(AsStr(kind)) == Some(kind) && Plain(AsStr(kind)) && ':' !in AsStr(kind)
  {
  }

  lemma PrintedEntryIsPlain(e: Entry)
    ensures Plain(PrintEntry(e)) && PrintEntry(e) != []
  {
    NamesRoundTrip(e.kind);
    DecimalDigits(e.ratio);
  }

  lemma EntryRoundTrip(e: Entry)
    ensures ParsePart(PrintEntry(e)) == if e.ratio > 0 then Success(e) else Failure(ZeroRatio(AsStr(e.kind)))
  {
    var name, digits := AsStr(e.kind), Decimal(e.ratio);
    NamesRoundTrip(e.kind);
    DecimalDigits(e.ratio);
    ParseDecimal(e.ratio);
    PrintedEntryIsPlain(e);
    TrimPlain(PrintEntry(e));
    TrimPlain(name);
    TrimPlain(digits);
    FindIn(name, ':', digits);
    assert PrintEntry(e)[..|name|] == name && PrintEntry(e)[|name| + 1..] == digits;
  }

  /** Every ratio can be written in the language. */
  predicate Writable(spec: seq<Entry>) {
    spec != [] && AllPositive(spec)
  }

  predicate AllPositive(spec: seq<Entry>) {
    forall i :: 0 <= i < |spec| ==> spec[i].ratio > 0
  }

  lemma FirstPositive(spec: seq<Entry>)
    requires spec != []
    ensures AllPositive(spec) <==> spec[0].ratio > 0 && AllPositive(spec[1..])
  {
    assert spec == [spec[0]] + spec[1..];
  }

  /** What parsing the printed entries one by one gives. */
  function Reparsed(spec: seq<Entry>): Result<seq<Entry>, ParseError> {
    if spec == [] then Success([])
    else if spec[0].ratio > 0 then Continue([spec[0]], Reparsed(spec[1..]))
    else Failure(ZeroRatio(AsStr(spec[0].kind)))
  }

  lemma {:induction false} PartsReparsed(spec: seq<Entry>)
    ensures ParseParts(PrintEntries(spec)) == Reparsed(spec)
    decreases |spec|
  {
    if spec == [] {
    } else {
      PartsReparsed(spec[1..]);
      PrintFirst(spec);
      ParseFirst(PrintEntries(spec), spec[0], PrintEntries(spec[1..]));
    }
  }

  lemma {:induction false} ReparsedIff(spec: seq<Entry>)
    ensures Reparsed(spec).Success? <==> AllPositive(spec)
    ensures AllPositive(spec) ==> Reparsed(spec) == Success(spec)
    decreases |spec|
  {
    if spec == [] {
    } else {
      ReparsedIff(spec[1..]);
      FirstPositive(spec);
      assert spec == [spec[0]] + spec[1..];
    }
  }

  lemma PrintFirst(spec: seq<Entry>)
    requires spec != []
    ensures PrintEntries(spec) == [PrintEntry(spec[0])] + PrintEntries(spec[1..])
  {
  }

  lemma ParseFirst(parts: seq<string>, e: Entry, rest: seq<string>)
    requires parts == [PrintEntry(e)] + rest
    ensures ParseParts(parts) ==
            if e.ratio > 0 then Continue([e], ParseParts(rest)) else Failure(ZeroRatio(AsStr(e.kind)))
  {
    EntryRoundTrip(e);
    assert parts[0] == PrintEntry(e) && parts[1..] == rest;
  }

  lemma {:induction false} JoinHasNoSpace(parts: seq<string>)
    requires forall i :: 0 <= i < |parts| ==> Plain(parts[i])
    ensures forall i :: 0 <= i < |Join(parts, ',')| ==> !IsWhitespace(Join(parts, ',')[i])
    decreases |parts|
  {
    if |parts| <= 1 {
    } else {
      JoinHasNoSpace(parts[1..]);
    }
  }

  lemma PrintSplits(spec: seq<Entry>)
    requires spec != []
    ensures Trim(Print(spec)) == Print(spec) != [] && Split(Print(spec), ',') == PrintEntries(spec)
  {
    var parts := PrintEntries(spec);
    forall i | 0 <= i < |parts| ensures Plain(parts[i]) && ',' !in parts[i] {
      PrintedEntryIsPlain(spec[i]);
    }
    PrintedEntryIsPlain(spec[0]);
    JoinHasNoSpace(parts);
    TrimPlain(Print(spec));
    SplitJoin(parts, ',');
  }

  // ---- Main results ----

  /** Printing and parsing gives the spec back exactly when it is non-empty and its ratios are positive. */
  lemma PrintParseIff(spec: seq<Entry>)
    ensures ParseSpec(Print(spec)) == Success(spec) <==> Writable(spec)
  {
    if spec != [] {
      PrintSplits(spec);
      PartsReparsed(spec);
      ReparsedIff(spec);
    }
  }

  lemma {:induction false} AcceptedRatios(parts: seq<string>)
    requires ParseParts(parts).Success?
    ensures |ParseParts(parts).value| == |parts|
    ensures forall i :: 0 <= i < |parts| ==> ParseParts(parts).value[i].ratio > 0
    decreases |parts|
  {
    if parts == [] {
    } else {
      AcceptedRatios(parts[1..]);
    }
  }

  /** Every accepted string stands for a non-empty spec with positive ratios, and printing that spec is a normal form:
      it parses to the same spec. */
  lemma ParsePrintParse(s: string)
    requires ParseSpec(s).Success?
    ensures Writable(ParseSpec(s).value)
    ensures ParseSpec(Print(ParseSpec(s).value)) == ParseSpec(s)
  {
    AcceptedRatios(Split(Trim(s), ','));
    PrintParseIff(ParseSpec(s).value);
  }
}
