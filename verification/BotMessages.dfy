/** How a bot recognises its own messages among everything the room broadcasts. */
module BotMessages {
  import opened Wrappers
  import opened L = RatioLanguage
  import B = Bots

  /** `t` occurs in `s` at position `i`. */
  predicate OccursAt(s: string, t: string, i: nat) {
    i + |t| <= |s| && s[i..i + |t|] == t
  }

  /** `str::contains`. */
  predicate Contains(s: string, t: string) {
    exists i :: 0 <= i <= |s| && OccursAt(s, t, i)
  }

  /** `str::find`: the first occurrence at or after `from`. */
  function FindStr(s: string, t: string, from: nat): (r: Option<nat>)
    ensures r.None? ==> forall i :: from <= i <= |s| ==> !OccursAt(s, t, i)
    ensures r.Some? ==>
      from <= r.value <= |s| && OccursAt(s, t, r.value) && forall i :: from <= i < r.value ==> !OccursAt(s, t, i)
    decreases |s| + 1 - from
  {
    if from > |s| then None
    else if OccursAt(s, t, from) then Some(from)
    else FindStr(s, t, from + 1)
  }

  /** The leading digits of a string. */
  function Digits(s: string): (d: string)
    ensures forall i :: 0 <= i < |d| ==> IsDigit(d[i])
  {
    if s == [] || !IsDigit(s[0]) then [] else [s[0]] + Digits(s[1..])
  }

  /** `str::parse::<usize>` of a string of digits. */
  function ParseDigits(digits: string): Option<nat>
    requires forall i :: 0 <= i < |digits| ==> IsDigit(digits[i])
  {
    if digits == [] || Value(digits) >= B.U64_LIMIT then None else Some(Value(digits))
  }

  /** The number behind the first occurrence of `target`. */
  function ExtractSeq(line: string, target: string): Option<nat> {
    var at := FindStr(line, target, 0);
    if at.None? then None else ParseDigits(Digits(line[at.value + |target|..]))
  }

  /** What bot `id` looks for. */
  function Target(id: nat): string {
    "bot_" + Decimal(id) + "_msg_"
  }

  /** The text of message `seq` of bot `id`. */
  function Text(id: nat, seq_: nat): string {
    Target(id) + Decimal(seq_)
  }

  /** A broadcast line around a bot's text. None of the JSON keys and constants of a chat message contains the letter
      `b`, and a quote follows the text. */
  predicate Envelope(pre: string, post: string) {
    'b' !in pre && 'b' !in post && (post == [] || !IsDigit(post[0]))
  }

  lemma {:induction false} DigitsThen(d: string, rest: string)
    requires forall i :: 0 <= i < |d| ==> IsDigit(d[i])
    requires rest == [] || !IsDigit(rest[0])
    ensures Digits(d + rest) == d
    decreases |d|
  {
    if d == [] {
      assert d + rest == rest;
    } else {
      assert (d + rest)[1..] == d[1..] + rest;
      DigitsThen(d[1..], rest);
    }
  }

  /** In a chat line of a bot the letter `b` occurs only where the bot's text begins. */
  lemma OnlyOneB(pre: string, id: nat, n: nat, post: string, i: nat)
    requires Envelope(pre, post) && i < |pre + Text(id, n) + post|
    ensures (pre + Text(id, n) + post)[i] == 'b' <==> i == |pre|
  {
    DecimalDigits(id);
    DecimalDigits(n);
    var text := Text(id, n);
    var k := |Decimal(id)|;
    assert text == "bot_" + Decimal(id) + "_msg_" + Decimal(n);
    forall j | 0 < j < |text| ensures text[j] != 'b' {
      if 4 <= j < 4 + k {
        assert text[j] == Decimal(id)[j - 4];
      } else if 9 + k <= j {
        assert text[j] == Decimal(n)[j - 9 - k];
      }
    }
  }

  /** The occurrences of a bot's target in a chat line of a bot. */
  lemma TargetOccurs(pre: string, a: nat, b: nat, n: nat, post: string, i: nat)
    requires Envelope(pre, post) && i <= |pre + Text(b, n) + post|
    ensures OccursAt(pre + Text(b, n) + post, Target(a), i) <==> i == |pre| && a == b
  {
    var line := pre + Text(b, n) + post;
    var t := Target(a);
    if a == b && i == |pre| {
      assert line[i..i + |t|] == t;
    }
    if OccursAt(line, t, i) {
      assert line[i] == t[0] == 'b';
      OnlyOneB(pre, b, n, post, i);
      SameDigits(line, i, a, b, n, pre, post);
    }
  }

  lemma SameDigits(line: string, i: nat, a: nat, b: nat, n: nat, pre: string, post: string)
    requires line == pre + Text(b, n) + post && i == |pre| && OccursAt(line, Target(a), i)
    ensures a == b
  {
    var after := line[i + 4..];
    BehindBot(line, i, Target(a));
    TargetTail(a);
    TextTail(pre, b, n, post);
    FirstNumber(after, a, after[|Decimal(a)| + 5..]);
    FirstNumber(after, b, Decimal(n) + post);
    DecimalValue(a);
    DecimalValue(b);
  }

  lemma BehindBot(line: string, i: nat, t: string)
    requires OccursAt(line, t, i) && |t| >= 4
    ensures i + |t| <= |line| && line[i + 4..] == t[4..] + line[i + 4..][|t| - 4..]
  {
    forall j | 4 <= j < |t| ensures line[i + j] == t[j] {
      assert line[i..i + |t|][j] == t[j];
    }
  }

  lemma TargetTail(a: nat)
    ensures |Target(a)| == |Decimal(a)| + 9 && Target(a)[4..] == Decimal(a) + "_msg_"
  {
    assert Target(a) == "bot_" + (Decimal(a) + "_msg_");
  }

  lemma TextTail(pre: string, b: nat, n: nat, post: string)
    ensures (pre + Text(b, n) + post)[|pre| + 4..] == Decimal(b) + "_msg_" + (Decimal(n) + post)
  {
    assert pre + Text(b, n) + post == pre + "bot_" + (Decimal(b) + "_msg_" + (Decimal(n) + post));
  }

  /** The digits in front of the first underscore. */
  lemma FirstNumber(s: string, id: nat, rest: string)
    requires s == Decimal(id) + "_msg_" + rest
    ensures Digits(s) == Decimal(id)
  {
    DecimalDigits(id);
    DigitsThen(Decimal(id), "_msg_" + rest);
    assert s == Decimal(id) + ("_msg_" + rest);
  }

  // ---- Main results ----

  /** A bot recognises exactly its own messages. */
  lemma OwnMessagesOnly(pre: string, a: nat, b: nat, n: nat, post: string)
    requires Envelope(pre, post)
    ensures Contains(pre + Text(b, n) + post, Target(a)) <==> a == b
  {
    var line := pre + Text(b, n) + post;
    forall i | 0 <= i <= |line| ensures OccursAt(line, Target(a), i) <==> i == |pre| && a == b {
      TargetOccurs(pre, a, b, n, post, i);
    }
    assert a == b ==> OccursAt(line, Target(a), |pre|);
  }

  /** The number a bot extracts from one of its own messages is the number it sent, and none if that exceeds 64 bits. */
  lemma SequenceRecovered(pre: string, id: nat, n: nat, post: string)
    requires Envelope(pre, post)
    ensures ExtractSeq(pre + Text(id, n) + post, Target(id)) == if n < 0x1_0000_0000_0000_0000 then Some(n) else None
  {
    var line := pre + Text(id, n) + post;
    FoundAtText(pre, id, n, post);
    DigitsBehind(pre, Target(id), n, post);
    NumberFound(line, Target(id), |pre|, Decimal(n));
    DecimalParses(n);
  }

  lemma DecimalParses(n: nat)
    ensures forall i :: 0 <= i < |Decimal(n)| ==> IsDigit(Decimal(n)[i])
    ensures ParseDigits(Decimal(n)) == if n < 0x1_0000_0000_0000_0000 then Some(n) else None
  {
    DecimalDigits(n);
    DecimalValue(n);
  }

  lemma NumberFound(line: string, t: string, at: nat, digits: string)
    requires FindStr(line, t, 0) == Some(at) && Digits(line[at + |t|..]) == digits
    ensures forall i :: 0 <= i < |digits| ==> IsDigit(digits[i])
    ensures ExtractSeq(line, t) == ParseDigits(digits)
  {
  }

  lemma DigitsBehind(pre: string, t: string, n: nat, post: string)
    requires post == [] || !IsDigit(post[0])
    ensures |pre| + |t| <= |pre + (t + Decimal(n)) + post|
    ensures Digits((pre + (t + Decimal(n)) + post)[|pre| + |t|..]) == Decimal(n)
  {
    BehindTarget(pre, t, Decimal(n), post);
    DecimalDigits(n);
    DigitsThen(Decimal(n), post);
  }

  lemma FoundAtText(pre: string, id: nat, n: nat, post: string)
    requires Envelope(pre, post)
    ensures FindStr(pre + Text(id, n) + post, Target(id), 0) == Some(|pre|)
  {
    var line := pre + Text(id, n) + post;
    assert |pre| <= |line|;
    forall i: nat | i <= |line| ensures OccursAt(line, Target(id), i) <==> i == |pre| {
      TargetOccurs(pre, id, id, n, post, i);
    }
    assert OccursAt(line, Target(id), |pre|);
  }

  lemma BehindTarget(pre: string, t: string, d: string, post: string)
    ensures (pre + (t + d) + post)[|pre| + |t|..] == d + post
  {
    assert pre + (t + d) + post == (pre + t) + (d + post);
  }

  /** The first occurrence of `target` is at `at`. */
  ghost predicate FirstAt(line: string, target: string, at: nat) {
    at <= |line| && OccursAt(line, target, at) && forall i :: 0 <= i < at ==> !OccursAt(line, target, i)
  }

  /** `digits` is not empty, consists of digits, and is not followed by another one. */
  predicate IsNumber(digits: string, rest: string) {
    digits != [] && L.AllDigits(digits) && (rest == [] || !IsDigit(rest[0]))
  }

  /** The number `n`, `k` digits long, stands at the front of `s`. */
  predicate NumberFirst(s: string, k: nat, n: nat) {
    k <= |s| && IsNumber(s[..k], s[k..]) && Value(s[..k]) == n
  }

  /** The number `n`, `k` digits long, stands behind the first occurrence of `target`. */
  ghost predicate Shows(line: string, target: string, at: nat, k: nat, n: nat) {
    FirstAt(line, target, at) && NumberFirst(line[at + |target|..], k, n)
  }

  lemma {:induction false} DigitsSplit(s: string)
    ensures |Digits(s)| <= |s| && s[..|Digits(s)|] == Digits(s)
    ensures s[|Digits(s)|..] == [] || !IsDigit(s[|Digits(s)|..][0])
    decreases |s|
  {
    if s == [] || !IsDigit(s[0]) {
    } else {
      DigitsSplit(s[1..]);
      var d := Digits(s[1..]);
      assert s[..|d| + 1] == [s[0]] + s[1..][..|d|];
      assert s[|d| + 1..] == s[1..][|d|..];
    }
  }

  lemma NumberIsDigits(s: string, k: nat)
    requires k <= |s| && IsNumber(s[..k], s[k..])
    ensures Digits(s) == s[..k]
  {
    assert s == s[..k] + s[k..];
    DigitsThen(s[..k], s[k..]);
  }

  lemma FoundFirst(line: string, target: string, at: nat)
    ensures FindStr(line, target, 0) == Some(at) <==> FirstAt(line, target, at)
  {
    var found := FindStr(line, target, 0);
    assert found.Some? ==> OccursAt(line, target, found.value);
  }

  lemma ShownIsRead(line: string, target: string, at: nat, k: nat, n: nat)
    requires Shows(line, target, at, k, n)
    ensures ExtractSeq(line, target) == if n < 0x1_0000_0000_0000_0000 then Some(n) else None
  {
    FoundFirst(line, target, at);
    NumberIsDigits(line[at + |target|..], k);
  }

  lemma ReadIsShown(line: string, target: string) returns (at: nat, k: nat)
    requires ExtractSeq(line, target).Some?
    ensures Shows(line, target, at, k, ExtractSeq(line, target).value)
    ensures ExtractSeq(line, target).value < 0x1_0000_0000_0000_0000
  {
    at := FindStr(line, target, 0).value;
    FoundFirst(line, target, at);
    DigitsSplit(line[at + |target|..]);
    k := |Digits(line[at + |target|..])|;
  }

  /** A bot extracts a number if and only if it stands behind the first occurrence of its target and fits 64 bits. */
  lemma ExtractedIff(line: string, target: string, n: nat)
    ensures ExtractSeq(line, target) == Some(n) <==>
            n < 0x1_0000_0000_0000_0000 && exists at: nat, k: nat :: Shows(line, target, at, k, n)
  {
    if ExtractSeq(line, target) == Some(n) {
      var at, k := ReadIsShown(line, target);
    } else if at: nat, k: nat :| Shows(line, target, at, k, n) {
      ShownIsRead(line, target, at, k, n);
    }
  }

  // ---- The receive loop ----

  /** The lines that contain the target, in order. */
  function Matching(lines: seq<string>, target: string): seq<string> {
    if lines == [] then []
    else
      var rest := Matching(lines[1..], target);
      if Contains(lines[0], target) then [lines[0]] + rest else rest
  }

  lemma {:induction false} MatchingGrows(lines: seq<string>, i: nat, target: string)
    requires i < |lines|
    ensures Matching(lines[..i + 1], target) ==
            Matching(lines[..i], target) + if Contains(lines[i], target) then [lines[i]] else []
    decreases i
  {
    if i == 0 {
    } else {
      MatchingGrows(lines[1..], i - 1, target);
      assert lines[..i + 1][1..] == lines[1..][..i] && lines[..i][1..] == lines[1..][..i - 1];
    }
  }

  lemma {:induction false} MatchingPrefix(lines: seq<string>, i: nat, target: string)
    requires i <= |lines|
    ensures Matching(lines[..i], target) <= Matching(lines, target)
    decreases |lines| - i
  {
    if i < |lines| {
      MatchingPrefix(lines, i + 1, target);
      MatchingGrows(lines, i, target);
    } else {
      assert lines[..i] == lines;
    }
  }

  /** Counts own messages until `msgCount` of them have come in. `lines` are the lines that arrive before the stream
      ends or the time is up; `matched` are the lines the callback is given, in order. The loop stops after its first
      match even if it was asked for none. */
  method RecvUntilCount(lines: seq<string>, target: string, msgCount: nat) returns (count: nat, matched: seq<string>)
    ensures matched <= Matching(lines, target) && count == |matched|
    ensures
      var wanted := if msgCount == 0 then 1 else msgCount;
      count == if |Matching(lines, target)| < wanted then |Matching(lines, target)| else wanted
  {
    count, matched := 0, [];
    var i := 0;
    while i < |lines|
      invariant i <= |lines|
      invariant matched == Matching(lines[..i], target) && count == |matched|
      invariant count == 0 || count < msgCount
    {
      MatchingGrows(lines, i, target);
      MatchingPrefix(lines, i + 1, target);
      if Contains(lines[i], target) {
        matched := matched + [lines[i]];
        count := count + 1;
        if count >= msgCount {
          return;
        }
      }
      i := i + 1;
    }
    assert lines[..|lines|] == lines;
  }
}
