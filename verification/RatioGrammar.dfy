/**
 Which strings the ratio language accepts, and for which spec: a description that does not go through the parser's own
 trimming, splitting and number reading.
 */
module RatioGrammar {
  import opened Bots
  import opened RatioLanguage
  import opened Wrappers

  // ---- White space ----

  predicate Blank(s: string) {
    forall i :: 0 <= i < |s| ==> IsWhitespace(s[i])
  }

  /** No white space at either end. */
  predicate Bare(s: string) {
    s != [] ==> !IsWhitespace(s[0]) && !IsWhitespace(s[|s| - 1])
  }

  /** The characters of Unicode's White_Space property, by code point. */
  lemma WhitespaceIs(c: char)
    ensures IsWhitespace(c) <==>
            c as int in {0x9, 0xA, 0xB, 0xC, 0xD, 0x20, 0x85, 0xA0, 0x1680, 0x2000, 0x2001, 0x2002, 0x2003, 0x2004,
                         0x2005, 0x2006, 0x2007, 0x2008, 0x2009, 0x200A, 0x2028, 0x2029, 0x202F, 0x205F, 0x3000}
  {
  }

  lemma {:induction false} TrimStartOf(a: string, s: string)
    requires Blank(a) && (s == [] || !IsWhitespace(s[0]))
    ensures TrimStart(a + s) == s
    decreases |a|
  {
    if a == [] {
      assert a + s == s;
    } else {
      assert (a + s)[1..] == a[1..] + s;
      TrimStartOf(a[1..], s);
    }
  }

  lemma {:induction false} TrimEndOf(s: string, b: string)
    requires Blank(b) && (s == [] || !IsWhitespace(s[|s| - 1]))
    ensures TrimEnd(s + b) == s
    decreases |b|
  {
    if b == [] {
      assert s + b == s;
    } else {
      assert (s + b)[..|s + b| - 1] == s + b[..|b| - 1];
      TrimEndOf(s, b[..|b| - 1]);
    }
  }

  /** Trimming takes off the white space at both ends, and nothing else. */
  lemma TrimOf(a: string, s: string, b: string)
    requires Blank(a) && Blank(b) && Bare(s)
    ensures Trim(a + s + b) == s
  {
    if s == [] {
      assert a + s + b == (a + b) + [];
      TrimStartOf(a + b, []);
    } else {
      assert a + s + b == a + (s + b);
      TrimStartOf(a, s + b);
      TrimEndOf(s, b);
    }
  }

  lemma {:induction false} StartTrimmed(s: string) returns (a: string)
    ensures s == a + TrimStart(s) && Blank(a) && (TrimStart(s) == [] || !IsWhitespace(TrimStart(s)[0]))
    decreases |s|
  {
    if s == [] || !IsWhitespace(s[0]) {
      a := [];
    } else {
      a := StartTrimmed(s[1..]);
      assert s == [s[0]] + s[1..];
      a := [s[0]] + a;
    }
  }

  lemma {:induction false} EndTrimmed(s: string) returns (b: string)
    ensures s == TrimEnd(s) + b && Blank(b) && (TrimEnd(s) == [] || !IsWhitespace(TrimEnd(s)[|TrimEnd(s)| - 1]))
    decreases |s|
  {
    if s == [] || !IsWhitespace(s[|s| - 1]) {
      b := [];
    } else {
      b := EndTrimmed(s[..|s| - 1]);
      assert s == s[..|s| - 1] + [s[|s| - 1]];
      b := b + [s[|s| - 1]];
    }
  }

  lemma Trimmed(s: string) returns (a: string, b: string)
    ensures s == a + Trim(s) + b && Blank(a) && Blank(b) && Bare(Trim(s))
  {
    a := StartTrimmed(s);
    b := EndTrimmed(TrimStart(s));
    assert Trim(s) != [] ==> Trim(s)[0] == TrimStart(s)[0];
  }

  // ---- Numbers and names ----

  /** Decimal digits, after an optional plus sign, that stand for `n`. */
  ghost predicate Number(s: string, n: nat) {
    exists digits: string :: (s == digits || s == "+" + digits) && Denotes(digits, n)
  }

  predicate Denotes(digits: string, n: nat) {
    digits != [] && AllDigits(digits) && Value(digits) == n
  }

  lemma NumberUnique(s: string, n: nat)
    requires Number(s, n)
    ensures ParseU32(s) == if n < 4294967296 then Some(n) else None
  {
    var digits: string :| (s == digits || s == "+" + digits) && Denotes(digits, n);
    assert IsDigit(digits[0]);
    if s != digits {
      assert s == ['+'] + digits;
      assert s[1..] == digits;
    }
  }

  /** A number is read if and only if it is written in decimal and below 2 to the power of 32. */
  lemma NumberReadIff(s: string, n: nat)
    ensures (ParseU32(s).Some? && ParseU32(s).value == n) <==> Number(s, n) && n < 4294967296
  {
    if Number(s, n) {
      NumberUnique(s, n);
    }
    if ParseU32(s).Some? && ParseU32(s).value == n {
      if |s| > 1 && s[0] == '+' {
        assert s == "+" + s[1..];
        assert Denotes(s[1..], n);
      } else {
        assert Denotes(s, n);
      }
    }
  }

  /** A name is known if and only if it is that of the kind. */
  lemma NameKnownIff(s: string, kind: BotType)
    ensures FromStr(s) == Some(kind) <==> s == AsStr(kind)
  {
  }

  // ---- One entry ----

  /** `text` is `core` with white space around it. */
  ghost predicate Padded(text: string, core: string) {
    exists a: string, b: string :: text == a + core + b && Blank(a) && Blank(b)
  }

  lemma PaddedIff(text: string, core: string)
    requires Bare(core)
    ensures Padded(text, core) <==> Trim(text) == core
  {
    if Padded(text, core) {
      var a: string, b: string :| text == a + core + b && Blank(a) && Blank(b);
      TrimOf(a, core, b);
    }
    var a, b := Trimmed(text);
    assert Trim(text) == core ==> text == a + core + b;
  }

  /** `text` is the entry's name and number, each with white space around it, and a colon between the two. */
  ghost predicate Written(text: string, e: Entry) {
    exists left: string, right: string, num: string ::
      && text == left + ":" + right
      && Padded(left, AsStr(e.kind)) && Padded(right, num) && Number(num, e.ratio) && e.ratio > 0
  }

  lemma NumberIsBare(num: string, n: nat)
    requires Number(num, n)
    ensures num != [] && Bare(num) && ',' !in num && ':' !in num
  {
    var digits: string :| (num == digits || num == "+" + digits) && Denotes(digits, n);
    assert IsDigit(digits[0]) && IsDigit(digits[|digits| - 1]);
    assert num[|num| - 1] == digits[|digits| - 1];
    forall i | 0 <= i < |num| ensures num[i] != ',' && num[i] != ':' {
      assert num == digits ==> IsDigit(num[i]);
      assert num == "+" + digits && i > 0 ==> IsDigit(digits[i - 1]) && num[i] == digits[i - 1];
    }
  }

  lemma FindFirst(a: string, c: char, b: string)
    requires c !in a
    ensures Find(a + [c] + b, c) == |a| && (a + [c] + b)[..|a|] == a && (a + [c] + b)[|a| + 1..] == b
  {
    FindIn(a, c, b);
  }

  lemma {:induction false} FindTells(s: string, c: char)
    ensures c !in s[..Find(s, c)] && (c in s <==> Find(s, c) < |s|)
    decreases |s|
  {
    if s == [] || s[0] == c {
    } else {
      FindTells(s[1..], c);
      assert s[..Find(s, c)] == [s[0]] + s[1..][..Find(s[1..], c)];
    }
  }

  /** What is left of a part when it has been cut at its first colon. */
  function ReadEntry(left: string, right: string): Result<Entry, ParseError> {
    var kind, ratio := FromStr(Trim(left)), ParseU32(Trim(right));
    if kind.None? then Failure(UnknownType(Trim(left)))
    else if ratio.None? then Failure(BadNumber(Trim(right)))
    else if ratio.value == 0 then Failure(ZeroRatio(Trim(left)))
    else Success(Entry(kind.value, ratio.value))
  }

  lemma Regrouped<T>(a: seq<T>, l: seq<T>, m: seq<T>, r: seq<T>, b: seq<T>)
    ensures (a + l) + m + (r + b) == a + (l + m + r) + b
  {
  }

  lemma OuterTrim(left: string, right: string)
    ensures Trim(left + ":" + right) == TrimStart(left) + ":" + TrimEnd(right)
  {
    var a := StartTrimmed(left);
    var b := EndTrimmed(right);
    Regrouped(a, TrimStart(left), ":", TrimEnd(right), b);
    TrimOf(a, TrimStart(left) + ":" + TrimEnd(right), b);
  }

  lemma TrimStarted(s: string)
    ensures Trim(TrimStart(s)) == Trim(s)
  {
    var a := StartTrimmed(s);
    TrimAgain(a, TrimStart(s));
  }

  lemma TrimEnded(s: string)
    ensures Trim(TrimEnd(s)) == Trim(s)
  {
    var b := EndTrimmed(s);
    TrimAgainEnd(TrimEnd(s), b);
  }

  /** A part is read by what stands on either side of its first colon. */
  lemma PartCut(left: string, right: string)
    requires ':' !in left
    ensures ParsePart(left + ":" + right) == ReadEntry(left, right)
  {
    OuterTrim(left, right);
    var a := StartTrimmed(left);
    assert ':' !in TrimStart(left);
    FindFirst(TrimStart(left), ':', TrimEnd(right));
    TrimStarted(left);
    TrimEnded(right);
  }

  lemma TrimAgain(a: string, s: string)
    requires Blank(a)
    ensures Trim(a + s) == Trim(s)
  {
    var x, y := Trimmed(s);
    assert a + s == (a + x) + Trim(s) + y;
    TrimOf(a + x, Trim(s), y);
  }

  lemma TrimAgainEnd(s: string, b: string)
    requires Blank(b)
    ensures Trim(s + b) == Trim(s)
  {
    var x, y := Trimmed(s);
    assert s + b == x + Trim(s) + (y + b);
    TrimOf(x, Trim(s), y + b);
  }

  lemma PaddedHas(text: string, core: string, c: char)
    requires Padded(text, core) && !IsWhitespace(c)
    ensures c in text <==> c in core
  {
    var a: string, b: string :| text == a + core + b && Blank(a) && Blank(b);
  }

  lemma SidesRead(left: string, right: string, num: string, e: Entry)
    requires Padded(left, AsStr(e.kind)) && Padded(right, num) && Number(num, e.ratio) && e.ratio > 0
    ensures ':' !in left && ',' !in left && ',' !in right && ReadEntry(left, right) == Success(e)
  {
    NamesRoundTrip(e.kind);
    NumberIsBare(num, e.ratio);
    PaddedHas(left, AsStr(e.kind), ':');
    PaddedHas(left, AsStr(e.kind), ',');
    PaddedHas(right, num, ',');
    PaddedIff(left, AsStr(e.kind));
    PaddedIff(right, num);
    NumberUnique(num, e.ratio);
  }

  lemma WrittenRead(text: string, e: Entry)
    requires Written(text, e)
    ensures ParsePart(text) == Success(e) && ',' !in text
  {
    var left: string, right: string, num: string :|
      && text == left + ":" + right
      && Padded(left, AsStr(e.kind)) && Padded(right, num) && Number(num, e.ratio) && e.ratio > 0;
    SidesRead(left, right, num, e);
    PartCut(left, right);
  }

  lemma ReadIsWritten(raw: string, e: Entry)
    requires ParsePart(raw) == Success(e)
    ensures Written(raw, e)
  {
    ReadHasColon(raw);
    var left, right := CutAt(raw, ':');
    SidesWritten(left, right, e);
  }

  lemma CutAt(s: string, c: char) returns (left: string, right: string)
    requires c in s
    ensures s == left + [c] + right && c !in left && |right| < |s|
  {
    var p := Find(s, c);
    FindTells(s, c);
    left, right := s[..p], s[p + 1..];
  }

  lemma SidesWritten(left: string, right: string, e: Entry)
    requires ':' !in left && ParsePart(left + ":" + right) == Success(e)
    ensures Written(left + ":" + right, e)
  {
    PartCut(left, right);
    var a, b := Trimmed(left);
    var c, d := Trimmed(right);
    NameKnownIff(Trim(left), e.kind);
    NumberReadIff(Trim(right), e.ratio);
    assert Padded(left, AsStr(e.kind));
    assert Padded(right, Trim(right));
  }

  /** Without a colon a part has the wrong format, and only then. */
  lemma ReadHasColon(raw: string)
    ensures ParsePart(raw) == Failure(BadFormat(Trim(raw))) <==> ':' !in raw
    ensures ParsePart(raw).Failure? && ParsePart(raw).error.BadFormat? ==> ':' !in raw
  {
    FindTells(Trim(raw), ':');
    var a, b := Trimmed(raw);
    assert ':' in raw <==> ':' in Trim(raw);
  }

  /** A part is accepted for an entry if and only if it is that entry's name and number, each with white space around
      it. */
  lemma PartAcceptedIff(raw: string, e: Entry)
    ensures ParsePart(raw) == Success(e) <==> Written(raw, e)
  {
    if Written(raw, e) {
      WrittenRead(raw, e);
    } else if ParsePart(raw) == Success(e) {
      ReadIsWritten(raw, e);
    }
  }

  /** The name of no kind. */
  ghost predicate NotAName(name: string) {
    forall kind :: AsStr(kind) != name
  }

  lemma UnknownName(name: string)
    ensures FromStr(name).None? <==> NotAName(name)
  {
    if FromStr(name).Some? {
      NameKnownIff(name, FromStr(name).value);
    }
    forall kind ensures FromStr(name) == Some(kind) <==> name == AsStr(kind) {
      NameKnownIff(name, kind);
    }
  }

  /** No decimal number below 2 to the power of 32. */
  ghost predicate NotANumber(num: string) {
    forall n: nat :: n < 4294967296 ==> !Number(num, n)
  }

  lemma UnknownNumber(num: string)
    ensures ParseU32(num).None? <==> NotANumber(num)
    ensures ParseU32(num) == Some(0) <==> Number(num, 0)
  {
    forall n: nat ensures (ParseU32(num).Some? && ParseU32(num).value == n) <==> Number(num, n) && n < 4294967296 {
      NumberReadIff(num, n);
    }
    assert ParseU32(num).Some? ==> Number(num, ParseU32(num).value);
    NumberReadIff(num, 0);
  }

  /** What is wrong with a part that has a colon: its name, else its number, else that its ratio is zero. */
  lemma PartErrors(left: string, right: string)
    requires ':' !in left
    ensures
      var r, name, num := ParsePart(left + ":" + right), Trim(left), Trim(right);
      if NotAName(name) then r == Failure(UnknownType(name))
      else if NotANumber(num) then r == Failure(BadNumber(num))
      else if Number(num, 0) then r == Failure(ZeroRatio(name))
      else r.Success?
  {
    PartCut(left, right);
    UnknownName(Trim(left));
    UnknownNumber(Trim(right));
  }

  // ---- A list of parts ----

  /** What reading each part gives. */
  function Results(parts: seq<string>): seq<Result<Entry, ParseError>> {
    seq(|parts|, i requires 0 <= i < |parts| => ParsePart(parts[i]))
  }

  /** All entries, or the first error. */
  function Collected(rs: seq<Result<Entry, ParseError>>): Result<seq<Entry>, ParseError> {
    if rs == [] then Success([])
    else if rs[0].Failure? then Failure(rs[0].error)
    else
      var rest := Collected(rs[1..]);
      if rest.Failure? then rest else Success([rs[0].value] + rest.value)
  }

  lemma {:induction false} PartsCollected(parts: seq<string>)
    ensures ParseParts(parts) == Collected(Results(parts))
    decreases |parts|
  {
    if parts == [] {
    } else {
      PartsCollected(parts[1..]);
      assert Results(parts)[1..] == Results(parts[1..]);
    }
  }

  /** Every part is accepted for the entry at its place. */
  ghost predicate AllRead(rs: seq<Result<Entry, ParseError>>, spec: seq<Entry>) {
    |rs| == |spec| && forall i :: 0 <= i < |rs| ==> rs[i] == Success(spec[i])
  }

  lemma {:induction false} CollectedIff(rs: seq<Result<Entry, ParseError>>, spec: seq<Entry>)
    ensures Collected(rs) == Success(spec) <==> AllRead(rs, spec)
    decreases |rs|
  {
    if rs == [] || spec == [] {
    } else {
      CollectedIff(rs[1..], spec[1..]);
      assert rs == [rs[0]] + rs[1..] && spec == [spec[0]] + spec[1..];
    }
  }

  lemma PartsAcceptedIff(parts: seq<string>, spec: seq<Entry>)
    ensures ParseParts(parts) == Success(spec) <==>
            |parts| == |spec| && forall i :: 0 <= i < |parts| ==> ParsePart(parts[i]) == Success(spec[i])
  {
    PartsCollected(parts);
    CollectedIff(Results(parts), spec);
    assert forall i :: 0 <= i < |parts| ==> Results(parts)[i] == ParsePart(parts[i]);
  }

  /** Part `i` is bad with this error, and every part before it is good. */
  ghost predicate FirstBad(rs: seq<Result<Entry, ParseError>>, e: ParseError, i: nat) {
    i < |rs| && rs[i] == Failure(e) && forall j :: 0 <= j < i ==> rs[j].Success?
  }

  lemma {:induction false} FirstBadDecides(rs: seq<Result<Entry, ParseError>>, e: ParseError, i: nat)
    requires FirstBad(rs, e, i)
    ensures Collected(rs) == Failure(e)
    decreases i
  {
    if i > 0 {
      FirstBadDecides(rs[1..], e, i - 1);
    }
  }

  lemma {:induction false} FirstBadFound(rs: seq<Result<Entry, ParseError>>, e: ParseError) returns (i: nat)
    requires Collected(rs) == Failure(e)
    ensures FirstBad(rs, e, i)
    decreases |rs|
  {
    i := 0;
    if rs[0].Success? {
      i := FirstBadFound(rs[1..], e);
      i := i + 1;
    }
  }

  /** The first bad part decides the error. */
  lemma FirstErrorIff(parts: seq<string>, e: ParseError)
    ensures ParseParts(parts) == Failure(e) <==> exists i :: FirstBad(Results(parts), e, i)
  {
    PartsCollected(parts);
    var rs := Results(parts);
    if Collected(rs) == Failure(e) {
      var i := FirstBadFound(rs, e);
    } else if i :| FirstBad(rs, e, i) {
      FirstBadDecides(rs, e, i);
    }
  }

  // ---- A whole spec ----

  lemma {:induction false} JoinSplit(s: string, c: char)
    ensures Split(s, c) != [] && Join(Split(s, c), c) == s
    decreases |s|
  {
    var p := Find(s, c);
    if p == |s| {
    } else {
      JoinSplit(s[p + 1..], c);
      assert s == s[..p] + [c] + s[p + 1..];
      var parts := Split(s, c);
      assert parts[0] == s[..p] && parts[1..] == Split(s[p + 1..], c);
    }
  }

  function TrimAll(parts: seq<string>): seq<string> {
    seq(|parts|, i requires 0 <= i < |parts| => Trim(parts[i]))
  }

  lemma TrimFirst(x: string, rest: seq<string>)
    ensures TrimAll([x] + rest) == [Trim(x)] + TrimAll(rest)
  {
  }

  lemma SameTrims(parts: seq<string>, parts': seq<string>)
    requires TrimAll(parts) == TrimAll(parts')
    ensures ParseParts(parts) == ParseParts(parts')
  {
    assert |parts| == |TrimAll(parts)| == |parts'|;
    forall i | 0 <= i < |parts| ensures ParsePart(parts[i]) == ParsePart(parts'[i]) {
      assert Trim(parts[i]) == TrimAll(parts)[i] == TrimAll(parts')[i] == Trim(parts'[i]);
    }
    assert Results(parts) == Results(parts');
    PartsCollected(parts);
    PartsCollected(parts');
  }

  lemma SplitOff(x: string, t: string, c: char)
    requires c !in x
    ensures Split(x + [c] + t, c) == [x] + Split(t, c)
  {
    FindFirst(x, c, t);
  }

  lemma SplitWhole(x: string, c: char)
    requires c !in x
    ensures Split(x, c) == [x]
  {
    FindNone(x, c);
  }

  lemma FrontGrouped<T>(a: seq<T>, x: seq<T>, m: seq<T>, r: seq<T>)
    ensures a + (x + m + r) == (a + x) + m + r
  {
  }

  /** Blanks in front of a list of parts belong to its first part. */
  lemma FrontBlank(a: string, t: string)
    requires Blank(a)
    ensures TrimAll(Split(a + t, ',')) == TrimAll(Split(t, ','))
  {
    if ',' in t {
      var x, rest := CutAt(t, ',');
      FrontGrouped(a, x, [','], rest);
      SplitOff(a + x, rest, ',');
      SplitOff(x, rest, ',');
      TrimAgain(a, x);
      TrimFirst(a + x, Split(rest, ','));
      TrimFirst(x, Split(rest, ','));
    } else {
      SplitWhole(a + t, ',');
      SplitWhole(t, ',');
      TrimAgain(a, t);
    }
  }

  /** Blanks behind it belong to its last part. */
  lemma {:induction false} BackBlank(t: string, b: string)
    requires Blank(b)
    ensures TrimAll(Split(t + b, ',')) == TrimAll(Split(t, ','))
    decreases |t|
  {
    if ',' in t {
      var x, rest := CutAt(t, ',');
      assert t + b == x + [','] + (rest + b);
      SplitOff(x, rest, ',');
      SplitOff(x, rest + b, ',');
      BackBlank(rest, b);
      TrimFirst(x, Split(rest + b, ','));
      TrimFirst(x, Split(rest, ','));
    } else {
      SplitWhole(t + b, ',');
      SplitWhole(t, ',');
      TrimAgainEnd(t, b);
    }
  }

  lemma BlankTrims(s: string)
    ensures Blank(s) <==> Trim(s) == []
  {
    var a, b := Trimmed(s);
    if Blank(s) {
      TrimOf(s, [], []);
      assert s + [] + [] == s;
    } else {
      assert Trim(s) != [] by {
        assert a + [] + b == a + b;
      }
    }
  }

  lemma OuterTrimFree(s: string)
    ensures ParseParts(Split(Trim(s), ',')) == ParseParts(Split(s, ','))
  {
    var a, b := Trimmed(s);
    BlanksAround(a, Trim(s), b);
  }

  lemma BlanksAround(a: string, t: string, b: string)
    requires Blank(a) && Blank(b)
    ensures ParseParts(Split(a + t + b, ',')) == ParseParts(Split(t, ','))
  {
    FrontBlank(a, t);
    BackBlank(a + t, b);
    SameTrims(Split(a + t + b, ','), Split(t, ','));
  }

  /** Trimming the whole string first makes no difference, but that a blank string is an empty spec. */
  lemma SpecCut(s: string)
    ensures ParseSpec(s) == if Blank(s) then Failure(EmptySpec) else ParseParts(Split(s, ','))
  {
    BlankTrims(s);
    OuterTrimFree(s);
  }

  /** `s` is made of one written entry after the other, with commas between them. */
  ghost predicate SpecText(s: string, spec: seq<Entry>) {
    exists texts: seq<string> ::
      |texts| == |spec| > 0 && s == Join(texts, ',') && forall i :: 0 <= i < |texts| ==> Written(texts[i], spec[i])
  }

  lemma WrittenNotBlank(texts: seq<string>, e: Entry)
    requires texts != [] && Written(texts[0], e)
    ensures !Blank(Join(texts, ','))
  {
    WrittenRead(texts[0], e);
    ReadHasColon(texts[0]);
    var i :| 0 <= i < |texts[0]| && texts[0][i] == ':';
    assert Join(texts, ',')[i] == ':';
  }

  lemma SpecTextRead(texts: seq<string>, spec: seq<Entry>)
    requires |texts| == |spec| > 0 && forall i :: 0 <= i < |texts| ==> Written(texts[i], spec[i])
    ensures ParseSpec(Join(texts, ',')) == Success(spec)
  {
    forall i | 0 <= i < |texts| ensures ParsePart(texts[i]) == Success(spec[i]) && ',' !in texts[i] {
      WrittenRead(texts[i], spec[i]);
    }
    SplitJoin(texts, ',');
    PartsAcceptedIff(texts, spec);
    WrittenNotBlank(texts, spec[0]);
    SpecCut(Join(texts, ','));
  }

  /** The language: a string is accepted for a spec if and only if it is the spec's entries, written one after the other
      with commas between them, and white space around every name and number. */
  lemma SpecAcceptedIff(s: string, spec: seq<Entry>)
    ensures ParseSpec(s) == Success(spec) <==> SpecText(s, spec)
  {
    if SpecText(s, spec) {
      var texts: seq<string> :|
        |texts| == |spec| > 0 && s == Join(texts, ',') && forall i :: 0 <= i < |texts| ==> Written(texts[i], spec[i]);
      SpecTextRead(texts, spec);
    } else if ParseSpec(s) == Success(spec) {
      SpecCut(s);
      var texts := Split(s, ',');
      JoinSplit(s, ',');
      PartsAcceptedIff(texts, spec);
      forall i | 0 <= i < |texts| ensures Written(texts[i], spec[i]) {
        PartAcceptedIff(texts[i], spec[i]);
      }
    }
  }

  // ---- The default mix ----

  const DEFAULT_TEXT: string :=
    "normal:40" + "," + ("spammer:20" + "," + ("fickle:20" + "," + ("ghost:10" + "," + "quitter:10")))

  lemma TwoDigits(n: nat)
    requires 10 <= n < 100
    ensures Decimal(n) == [('0' as int + n / 10) as char, ('0' as int + n % 10) as char]
  {
    assert Decimal(n / 10) == [('0' as int + n / 10) as char];
  }

  lemma DefaultEntries()
    ensures PrintEntries(DEFAULT_SPEC) == ["normal:40", "spammer:20", "fickle:20", "ghost:10", "quitter:10"]
  {
    TwoDigits(40);
    TwoDigits(20);
    TwoDigits(10);
    assert PrintEntry(Entry(Normal, 40)) == "normal:40";
    assert PrintEntry(Entry(Spammer, 20)) == "spammer:20";
    assert PrintEntry(Entry(Fickle, 20)) == "fickle:20";
    assert PrintEntry(Entry(Ghost, 10)) == "ghost:10";
    assert PrintEntry(Entry(Quitter, 10)) == "quitter:10";
  }

  lemma JoinOfFive(a: string, b: string, c: string, d: string, e: string)
    ensures Join([a, b, c, d, e], ',') == a + "," + (b + "," + (c + "," + (d + "," + e)))
  {
    assert [a, b, c, d, e][1..] == [b, c, d, e] && [b, c, d, e][1..] == [c, d, e];
    assert [c, d, e][1..] == [d, e] && [d, e][1..] == [e];
    assert Join([d, e], ',') == d + "," + e;
    assert Join([c, d, e], ',') == c + "," + (d + "," + e);
    assert Join([b, c, d, e], ',') == b + "," + (c + "," + (d + "," + e));
  }

  lemma PrintsAs(spec: seq<Entry>, a: string, b: string, c: string, d: string, e: string)
    requires PrintEntries(spec) == [a, b, c, d, e]
    ensures Print(spec) == a + "," + (b + "," + (c + "," + (d + "," + e)))
  {
    JoinOfFive(a, b, c, d, e);
  }

  lemma Reparses(spec: seq<Entry>, text: string)
    requires Print(spec) == text && Writable(spec)
    ensures ParseSpec(text) == Success(spec)
  {
    PrintParseIff(spec);
  }

  /** The default text is the default mix. */
  lemma DefaultParses()
    ensures ParseSpec(DEFAULT_TEXT) == Success(DEFAULT_SPEC)
  {
    DefaultEntries();
    PrintsAs(DEFAULT_SPEC, "normal:40", "spammer:20", "fickle:20", "ghost:10", "quitter:10");
    Reparses(DEFAULT_SPEC, DEFAULT_TEXT);
  }
}
