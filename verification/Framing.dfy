/** Receiving one message without the cache: 20 bytes first, then as many as tag 9 says
    (`FixSession::receive` in `source/fix/fix_session.cpp`), on a connection that reads fully. */
module Framing {
  import opened Integers
  import opened Wrappers
  import opened Text
  import opened FixConstants
  import opened FixMessages
  import opened FixParsers
  import opened RoundTrip

  const TRAILER_SIZE := 7
  const INITIAL_BUFFER_SIZE := 20
  const STACK_BUFFER_SIZE := 1024

  // ----- The specification -----

  function NextDelimiter(buf: string, j: nat, n: nat): (k: nat)
    requires j <= n <= |buf|
    ensures j <= k <= n && (forall i | j <= i < k :: buf[i] != FIX_DELIMITER) && (k < n ==> buf[k] == FIX_DELIMITER)
    decreases n - j
  {
    if j == n || buf[j] == FIX_DELIMITER then j else NextDelimiter(buf, j + 1, n)
  }

  predicate At(buf: string, i: nat, a: char, b: char)
    requires i + 1 < |buf|
  {
    buf[i] == a && buf[i + 1] == b
  }

  /** The body length and the index of "35" that the loop finds from i on; 0 stands for not found, None for a
      throwing stoi. Looking behind n reads what was in the buffer before. */
  function Measure(buf: string, n: nat, i: nat, length: nat): (r: Option<(nat, nat)>)
    requires n < |buf|
    ensures r.Some? ==> r.value.1 <= n
    decreases n - i
  {
    if i >= n then Some((length, 0))
    else if At(buf, i, '9', FIX_EQUALS) && i + 2 <= n && NextDelimiter(buf, i + 2, n) < n then
      var j := NextDelimiter(buf, i + 2, n);
      match StoI(buf[i + 2..j])
      case None => None
      case Some(v) => Measure(buf, n, j + 1, ToSize(v))
    else if At(buf, i, '3', '5') then Some((length, i))
    else Measure(buf, n, i + 1, length)
  }

  function Min(a: nat, b: nat): nat {
    if a < b then a else b
  }

  function Remaining(bodyLength: nat, received: nat, start: nat): nat
    requires start <= received
  {
    (bodyLength - (received - start) + TRAILER_SIZE) % SIZE_MODULUS
  }

  /** `Overrun` stands for a length so small that the size arithmetic wraps around. */
  datatype Receipt = Closed | Threw | Overrun | Got(msg: Msg, length: nat)

  function Parsed(m: Option<Msg>, length: nat): Receipt {
    match m case None => Threw case Some(r) => Got(r, length)
  }

  /** The second read of a call, of `want` bytes, with n already read. */
  function ReceiveRest(m: Msg, stream: string, n: nat, want: nat): (r: (Receipt, nat))
    requires n <= |stream|
    ensures r.1 <= |stream|
  {
    var all := n + Min(want, |stream| - n);
    if all == n then (Closed, n) else (Parsed(ParseOne(m, stream[..all]), all), all)
  }

  /** What a call does with the measures found among the n bytes of its first read. */
  function ReceiveMeasured(m: Msg, stream: string, n: nat, measures: Option<(nat, nat)>): (r: (Receipt, nat))
    requires n <= |stream| && (measures.Some? ==> measures.value.1 <= n)
    ensures r.1 <= |stream|
  {
    match measures
    case None => (Threw, n)
    case Some((length, start)) =>
      var want := Remaining(length, n, start);
      if want + INITIAL_BUFFER_SIZE >= SIZE_MODULUS then (Overrun, n) else ReceiveRest(m, stream, n, want)
  }

  /** The outcome of one call and the bytes it takes, for a stream and what the stack held before. */
  function ReceiveOne(m: Msg, stream: string, stack: string): (r: (Receipt, nat))
    requires |stack| == STACK_BUFFER_SIZE
    ensures r.1 <= |stream|
  {
    var n := Min(INITIAL_BUFFER_SIZE, |stream|);
    if n == 0 then (Closed, 0) else ReceiveMeasured(m, stream, n, Measure(stream[..n] + stack[n..], n, 0, 0))
  }

  // ----- What the loop finds in a printed message -----

  /** The beginning of a printed message. */
  function Opening(version: string, digits: string, rest: string): string {
    "8=" + version + [FIX_DELIMITER] + "9=" + digits + [FIX_DELIMITER] + "35" + rest
  }

  /** The index of "35" in it. */
  function BodyStart(version: string, digits: string): nat {
    6 + |version| + |digits|
  }

  lemma OpeningAt(v: string, d: string, rest: string)
    ensures var t := Opening(v, d, rest);
            && |t| == BodyStart(v, d) + 2 + |rest|
            && t[0] == '8' && t[1] == FIX_EQUALS && t[2..2 + |v|] == v && t[2 + |v|] == FIX_DELIMITER
            && t[3 + |v|] == '9' && t[4 + |v|] == FIX_EQUALS && t[5 + |v|..5 + |v| + |d|] == d
            && t[5 + |v| + |d|] == FIX_DELIMITER && t[6 + |v| + |d|] == '3' && t[7 + |v| + |d|] == '5'
  {
  }

  /** Neither the length nor the body starts inside the version. */
  predicate Quiet(v: string) {
    && Plain(v) && (forall i | 0 <= i < |v| :: v[i] != '9')
    && (forall i | 0 <= i < |v| - 1 :: !(v[i] == '3' && v[i + 1] == '5'))
  }

  lemma {:induction false} MeasureSkips(buf: string, n: nat, i: nat, k: nat, length: nat)
    requires i <= k <= n < |buf|
    requires forall t | i <= t < k :: !At(buf, t, '9', FIX_EQUALS) && !At(buf, t, '3', '5')
    ensures Measure(buf, n, i, length) == Measure(buf, n, k, length)
    decreases k - i
  {
    if i < k {
      MeasureSkips(buf, n, i + 1, k, length);
    }
  }

  lemma VersionQuiet(i: nat)
    requires i < |VERSION_STRINGS|
    ensures Quiet(VERSION_STRINGS[i])
  {
    var v := VERSION_STRINGS[i];
    VersionPlain(i);
    forall k | 0 <= k < |v| ensures v[k] != '9' && (k < |v| - 1 ==> v[k] != '3') {
    }
  }

  /** Up to the length nothing looks like a length or a body. */
  lemma OpeningSkips(buf: string, n: nat, v: string, d: string, rest: string)
    requires Quiet(v) && n < |buf| && n <= |Opening(v, d, rest)| && BodyStart(v, d) <= n
    requires forall i | 0 <= i < n :: buf[i] == Opening(v, d, rest)[i]
    ensures Measure(buf, n, 0, 0) == Measure(buf, n, 3 + |v|, 0)
  {
    var t := Opening(v, d, rest);
    OpeningAt(v, d, rest);
    forall i | 0 <= i < 3 + |v| ensures !At(buf, i, '9', FIX_EQUALS) && !At(buf, i, '3', '5') {
      if 2 <= i < 2 + |v| {
        assert t[i] == t[2..2 + |v|][i - 2] == v[i - 2];
        if i + 1 < 2 + |v| { assert t[i + 1] == t[2..2 + |v|][i - 1] == v[i - 1]; }
      }
    }
    MeasureSkips(buf, n, 0, 3 + |v|, 0);
  }

  /** The length is read. */
  lemma MeasureOpening(buf: string, n: nat, v: string, d: string, rest: string, length: nat)
    requires Quiet(v) && FIX_DELIMITER !in d && StoI(d) == Some(length)
    requires n < |buf| && n <= |Opening(v, d, rest)| && BodyStart(v, d) <= n
    requires forall i | 0 <= i < n :: buf[i] == Opening(v, d, rest)[i]
    ensures Measure(buf, n, 0, 0) == Measure(buf, n, BodyStart(v, d), length)
  {
    var t := Opening(v, d, rest);
    var k := 3 + |v|;
    var j := 5 + |v| + |d|;
    OpeningAt(v, d, rest);
    OpeningSkips(buf, n, v, d, rest);
    assert buf[k + 2..j] == t[k + 2..j] == d;
    DelimiterAt(buf, k + 2, j, n);
    MeasureLength(buf, n, k, 0, j);
  }

  lemma DelimiterAt(buf: string, i: nat, j: nat, n: nat)
    requires i <= j < n <= |buf| && buf[j] == FIX_DELIMITER && FIX_DELIMITER !in buf[i..j]
    ensures NextDelimiter(buf, i, n) == j
  {
    forall t | i <= t < j ensures buf[t] != FIX_DELIMITER {
      assert buf[t] == buf[i..j][t - i];
    }
  }

  /** Where the loop says the body starts: "35" must lie within the first 20 bytes; one byte further it depends
      on what the buffer held before. */
  function FoundStart(start: nat, stack: string): nat
    requires |stack| == STACK_BUFFER_SIZE
  {
    if start + 1 < INITIAL_BUFFER_SIZE || (start + 1 == INITIAL_BUFFER_SIZE && stack[INITIAL_BUFFER_SIZE] == '5')
    then start else 0
  }

  lemma MeasurePrinted(stack: string, v: string, d: string, rest: string, length: nat)
    requires |stack| == STACK_BUFFER_SIZE && Quiet(v) && FIX_DELIMITER !in d && StoI(d) == Some(length)
    requires INITIAL_BUFFER_SIZE <= |Opening(v, d, rest)| && BodyStart(v, d) <= INITIAL_BUFFER_SIZE
    ensures var n := INITIAL_BUFFER_SIZE;
            Measure(Opening(v, d, rest)[..n] + stack[n..], n, 0, 0) == Some((length, FoundStart(BodyStart(v, d), stack)))
  {
    var n := INITIAL_BUFFER_SIZE;
    var t := Opening(v, d, rest);
    var buf := t[..n] + stack[n..];
    var start := BodyStart(v, d);
    MeasureOpening(buf, n, v, d, rest, length);
    OpeningAt(v, d, rest);
    assert buf[n] == stack[n];
    if start < n {
      assert buf[start] == '3';
      if start + 1 == n { assert Measure(buf, n, start + 1, length) == Some((length, 0)); }
    }
  }

  // ----- Printed messages on the wire -----

  /** Tag 9 is the length of everything between its own delimiter and the trailer. */
  lemma PrintOpening(m: Msg, order: seq<int>) returns (rest: string)
    requires Printable(m, order)
    ensures var counted := Fields(Counted(m, order));
            var h := HeadOf(m, order);
            && h.length == ToDec(|counted|) && Print(m, order) == Opening(h.version, h.length, rest)
            && "35" + rest == counted + Field(TAG_BODY_CHECKSUM, CheckSum(Fields(Leading(m, order))))
            && |counted| >= 20
  {
    var h := HeadOf(m, order);
    var others := Fields(Counted(m, order)[1..]);
    var trailer := Field(TAG_BODY_CHECKSUM, CheckSum(Fields(Leading(m, order))));
    rest := [FIX_EQUALS] + h.kind + [FIX_DELIMITER] + (others + trailer);
    LeadingFields(m, order);
    CountedFields(m, order);
    CountedLength(m, order);
    Regroup(Field(TAG_VERSION, h.version), Field(TAG_BODY_LENGTH, h.length), Field(TAG_MESSAGE_TYPE, h.kind), others,
            trailer);
    OpeningFields(h.version, h.length, h.kind, others + trailer);
  }

  lemma Regroup(a: string, b: string, c: string, r: string, t: string)
    ensures (a + (b + (c + r))) + t == a + (b + (c + (r + t))) && (c + r) + t == c + (r + t)
  {
  }

  lemma CountedFields(m: Msg, order: seq<int>)
    requires Printable(m, order)
    ensures Fields(Counted(m, order)) ==
            Field(TAG_MESSAGE_TYPE, HeadOf(m, order).kind) + Fields(Counted(m, order)[1..])
  {
    var pairs := Counted(m, order);
    var p := (TAG_MESSAGE_TYPE, HeadOf(m, order).kind);
    assert pairs == [p] + pairs[1..];
    FieldsConcat([p], pairs[1..]);
    FieldsOne(p.0, p.1);
  }

  lemma LeadingFields(m: Msg, order: seq<int>)
    requires Printable(m, order)
    ensures var h := HeadOf(m, order);
            Fields(Leading(m, order)) ==
            Field(TAG_VERSION, h.version) + (Field(TAG_BODY_LENGTH, h.length) + Fields(Counted(m, order)))
  {
    var h, pairs := HeadOf(m, order), Counted(m, order);
    var second := [(TAG_BODY_LENGTH, h.length)] + pairs;
    assert Leading(m, order) == [(TAG_VERSION, h.version)] + second;
    FieldsConcat([(TAG_VERSION, h.version)], second);
    FieldsConcat([(TAG_BODY_LENGTH, h.length)], pairs);
    FieldsOne(TAG_VERSION, h.version);
    FieldsOne(TAG_BODY_LENGTH, h.length);
  }

  lemma OpeningFields(v: string, d: string, kind: string, tail: string)
    ensures Field(TAG_VERSION, v) + (Field(TAG_BODY_LENGTH, d) + (Field(TAG_MESSAGE_TYPE, kind) + tail)) ==
            Opening(v, d, [FIX_EQUALS] + kind + [FIX_DELIMITER] + tail)
    ensures Field(TAG_MESSAGE_TYPE, kind) + tail == "35" + ([FIX_EQUALS] + kind + [FIX_DELIMITER] + tail)
  {
    TagTexts();
  }

  lemma TagTexts()
    ensures ToDec(TAG_VERSION) == "8" && ToDec(TAG_BODY_LENGTH) == "9" && ToDec(TAG_MESSAGE_TYPE) == "35"
  {
    assert Digits(35) == Digits(3) + [Digit(5)];
  }

  lemma CountedLength(m: Msg, order: seq<int>)
    requires Printable(m, order)
    ensures |Fields(Counted(m, order))| >= 20
  {
    var first := Counted(m, [])[..5];
    HeaderLength(m);
    FieldsConcat(first, Body(m.body, order));
    assert Counted(m, order) == first + Body(m.body, order);
  }

  // ----- One call receives one message -----

  /** Tag 9 is printed from an int. */
  ghost predicate Sized(m: Msg, order: seq<int>)
    requires Printable(m, order)
  {
    |Fields(Counted(m, order))| <= INT_MAX
  }

  /** The opening up to "35" leaves room for these two characters in the first 20 bytes. */
  predicate Fits(version: string, digits: string) {
    |version| + |digits| <= 12
  }

  lemma LengthRead(m: Msg, order: seq<int>)
    requires Printable(m, order) && Sized(m, order)
    ensures var h := HeadOf(m, order);
            Quiet(h.version) && FIX_DELIMITER !in h.length && StoI(h.length) == Some(|Fields(Counted(m, order))|)
  {
    VersionQuiet(m.fixVersion);
    ToDecPlain(|Fields(Counted(m, order))|, FIX_DELIMITER);
    StoIOfToDec(|Fields(Counted(m, order))|);
  }

  lemma TrailerLength(s: string)
    ensures |Field(TAG_BODY_CHECKSUM, s)| == 4 + |s|
  {
    TenIs();
  }

  lemma CheckSumLength(s: string)
    ensures |CheckSum(s)| >= 3
  {
  }

  /** One call takes exactly the bytes of a printed message if and only if the checksum has three characters and
      "35" is found; with a longer opening the end of the message stays unread. */
  lemma ReceivesExactly(m: Msg, order: seq<int>, rest: string, stack: string)
    requires Printable(m, order) && Sized(m, order) && |stack| == STACK_BUFFER_SIZE
    ensures var h := HeadOf(m, order);
            ReceiveOne(EMPTY, Print(m, order) + rest, stack).1 == |Print(m, order)| <==>
            |CheckSum(Fields(Leading(m, order)))| == 3
            && (Fits(h.version, h.length)
                || (|h.version| + |h.length| == 13 && stack[INITIAL_BUFFER_SIZE] == '5'))
  {
    var h := HeadOf(m, order);
    if |h.version| + |h.length| <= 14 {
      TakesPrint(m, order, rest, stack);
      CheckSumLength(Fields(Leading(m, order)));
      TakesExactly(Print(m, order), rest, BodyStart(h.version, h.length),
                   |Fields(Counted(m, order))|, 4 + |CheckSum(Fields(Leading(m, order)))|, stack);
    } else {
      LongOpening(m, order, rest, stack);
    }
  }

  // ----- Openings that hide the length -----

  predicate NoLength(buf: string, n: nat, i: nat)
    requires i < n < |buf|
  {
    !(At(buf, i, '9', FIX_EQUALS) && i + 2 <= n && NextDelimiter(buf, i + 2, n) < n)
  }

  lemma {:induction false} MeasureNothing(buf: string, n: nat, i: nat)
    requires i <= n < |buf| && forall t | i <= t < n :: NoLength(buf, n, t)
    ensures Measure(buf, n, i, 0).Some? && Measure(buf, n, i, 0).value.0 == 0
    decreases n - i
  {
    if i < n {
      assert NoLength(buf, n, i);
      MeasureNothing(buf, n, i + 1);
    }
  }

  lemma NoDelimiter(buf: string, i: nat, n: nat)
    requires i <= n <= |buf| && FIX_DELIMITER !in buf[i..n]
    ensures NextDelimiter(buf, i, n) == n
  {
    forall t | i <= t < n ensures buf[t] != FIX_DELIMITER {
      assert buf[t] == buf[i..n][t - i];
    }
  }

  /** In a long opening the length does not end within the first n bytes, and nothing else looks like one. */
  lemma OpeningHidesLength(buf: string, n: nat, v: string, d: string, rest: string, i: nat)
    requires Plain(v) && Plain(d) && i < n < |buf| && n <= |Opening(v, d, rest)| && n <= 5 + |v| + |d| && 5 + |v| <= n
    requires forall k | 0 <= k < n :: buf[k] == Opening(v, d, rest)[k]
    ensures NoLength(buf, n, i)
  {
    var t := Opening(v, d, rest);
    OpeningAt(v, d, rest);
    forall k | 2 <= k < 2 + |v| ensures t[k] != FIX_EQUALS {
      assert t[k] == t[2..2 + |v|][k - 2] == v[k - 2];
    }
    forall k | 5 + |v| <= k < 5 + |v| + |d| ensures t[k] != FIX_EQUALS {
      assert t[k] == t[5 + |v|..5 + |v| + |d|][k - 5 - |v|] == d[k - 5 - |v|];
    }
    assert buf[5 + |v|..n] == t[5 + |v|..n] == d[..n - 5 - |v|];
    NoDelimiter(buf, 5 + |v|, n);
  }

  /** Without a length a call takes a few bytes at most. */
  lemma TakesLittle(m: Msg, stream: string, n: nat, start: nat)
    requires n <= |stream| && start <= n <= INITIAL_BUFFER_SIZE
    ensures ReceiveMeasured(m, stream, n, Some((0, start))).1 <= n + TRAILER_SIZE
  {
  }

  lemma VersionShort(i: nat)
    requires i < |VERSION_STRINGS|
    ensures |VERSION_STRINGS[i]| <= 10
  {
  }

  lemma PrintLength(m: Msg, order: seq<int>) returns (tail: string)
    requires Printable(m, order)
    ensures var h := HeadOf(m, order);
            && Print(m, order) == Opening(h.version, h.length, tail) && |Fields(Counted(m, order))| >= 20
            && |Print(m, order)| ==
               BodyStart(h.version, h.length) + |Fields(Counted(m, order))| + 4 + |CheckSum(Fields(Leading(m, order)))|
  {
    var h := HeadOf(m, order);
    var checksum := CheckSum(Fields(Leading(m, order)));
    tail := PrintOpening(m, order);
    TrailerLength(checksum);
    Longer("35", tail, Fields(Counted(m, order)), Field(TAG_BODY_CHECKSUM, checksum));
    OpeningAt(h.version, h.length, tail);
  }

  lemma LongOpening(m: Msg, order: seq<int>, rest: string, stack: string)
    requires Printable(m, order) && |stack| == STACK_BUFFER_SIZE
    requires |HeadOf(m, order).version| + |HeadOf(m, order).length| > 14
    ensures ReceiveOne(EMPTY, Print(m, order) + rest, stack).1 < |Print(m, order)|
  {
    var h := HeadOf(m, order);
    var tail := PrintLength(m, order);
    CheckSumLength(Fields(Leading(m, order)));
    VersionShort(m.fixVersion);
    HeadStripped(m, order);
    LongOpeningTakes(h.version, h.length, tail, rest, stack);
  }

  lemma LongOpeningTakes(v: string, d: string, tail: string, rest: string, stack: string)
    requires Plain(v) && Plain(d) && |v| <= 10 && |v| + |d| > 14 && |stack| == STACK_BUFFER_SIZE
    ensures ReceiveOne(EMPTY, Opening(v, d, tail) + rest, stack).1 <= INITIAL_BUFFER_SIZE + TRAILER_SIZE
  {
    var n := INITIAL_BUFFER_SIZE;
    var stream := Opening(v, d, tail) + rest;
    var buf := stream[..n] + stack[n..];
    OpeningAt(v, d, tail);
    OpeningMore(v, d, tail, rest);
    forall i | 0 <= i < n ensures NoLength(buf, n, i) {
      OpeningHidesLength(buf, n, v, d, tail + rest, i);
    }
    MeasureNothing(buf, n, 0);
    TakesLittle(EMPTY, stream, n, Measure(buf, n, 0, 0).value.1);
  }

  // ----- Messages that are not received exactly -----

  /** A message under the longest version text whose sender has n characters. */
  function Wide(n: nat): Msg {
    EMPTY.(fixVersion := 8, senderCompId := seq(n, _ => 'A'))
  }

  lemma WideLength(n: nat)
    ensures Printable(Wide(n), []) && |Fields(Counted(Wide(n), []))| == 25 + n
  {
    HeaderLength(Wide(n));
    assert Counted(Wide(n), [])[..5] == Counted(Wide(n), []);
    assert Body(Wide(n).body, []) == [];
  }

  /** Openings of 13, 14 and more characters exist for every body length from 100 on: none of these messages is
      received whole, but for the stack byte that may save the shortest ones. */
  lemma WideNotReceived(n: nat, rest: string, stack: string)
    requires 75 <= n <= INT_MAX - 25 && |stack| == STACK_BUFFER_SIZE
    requires n >= 975 || stack[INITIAL_BUFFER_SIZE] != '5'
    ensures Printable(Wide(n), [])
    ensures |HeadOf(Wide(n), []).version| + |HeadOf(Wide(n), []).length| == 13 <==> n < 975
    ensures ReceiveOne(EMPTY, Print(Wide(n), []) + rest, stack).1 != |Print(Wide(n), [])|
  {
    WideLength(n);
    DigitsLength(25 + n);
    ReceivesExactly(Wide(n), [], rest, stack);
  }

  /** A message whose sender is a hundred of the most negative characters and one more. */
  function Heavy(c: char): Msg {
    EMPTY.(fixVersion := 3, senderCompId := seq(100, _ => 128 as char) + [c])
  }

  lemma {:induction false} SumBound(s: string)
    ensures Sum(s) <= 127 * |s|
    decreases |s|
  {
    if s != "" { SumBound(s[..|s| - 1]); }
  }

  lemma {:induction false} SumHeavy(s: string)
    requires forall i | 0 <= i < |s| :: s[i] == 128 as char
    ensures Sum(s) == -128 * |s|
    decreases |s|
  {
    if s != "" { SumHeavy(s[..|s| - 1]); }
  }

  lemma HeavyLength(c: char)
    requires c != FIX_DELIMITER
    ensures Printable(Heavy(c), []) && |Fields(Counted(Heavy(c), []))| == 126
    ensures HeadOf(Heavy(c), []) == Head("FIX.4.2", "126", "NONE", "1", Heavy(c).senderCompId, "", "")
  {
    HeaderLength(Heavy(c));
    assert Counted(Heavy(c), [])[..5] == Counted(Heavy(c), []);
    assert Body(Heavy(c).body, []) == [];
    assert Digits(126) == Digits(12) + [Digit(6)] && Digits(12) == Digits(1) + [Digit(2)];
  }

  /** The text around the last character of the sender. */
  function HeavyBefore(): string {
    Fields([(TAG_VERSION, "FIX.4.2"), (TAG_BODY_LENGTH, "126"), (TAG_MESSAGE_TYPE, "NONE"), (TAG_SEQUENCE_NUMBER, "1")])
    + ToDec(TAG_SENDER_COMPID) + [FIX_EQUALS]
  }

  function HeavyBehind(): string {
    [FIX_DELIMITER] + Fields([(TAG_SENDING_TIME, ""), (TAG_TARGET_COMPID, "")])
  }

  lemma HeavyLeading(c: char)
    requires c != FIX_DELIMITER
    ensures Printable(Heavy(c), [])
    ensures Leading(Heavy(c), []) ==
            [(TAG_VERSION, "FIX.4.2"), (TAG_BODY_LENGTH, "126"), (TAG_MESSAGE_TYPE, "NONE"), (TAG_SEQUENCE_NUMBER, "1")]
            + ([(TAG_SENDER_COMPID, Heavy(c).senderCompId)] + [(TAG_SENDING_TIME, ""), (TAG_TARGET_COMPID, "")])
  {
    HeavyLength(c);
    LeadingIs(Heavy(c), []);
  }

  lemma FieldBetween(before: string, tag: int, v: string, behind: string)
    ensures before + (Field(tag, v) + behind) ==
            (before + ToDec(tag) + [FIX_EQUALS]) + v + ([FIX_DELIMITER] + behind)
  {
  }

  lemma HeavyText(c: char)
    requires c != FIX_DELIMITER
    ensures Printable(Heavy(c), [])
    ensures Fields(Leading(Heavy(c), [])) == HeavyBefore() + Heavy(c).senderCompId + HeavyBehind()
  {
    var first := [(TAG_VERSION, "FIX.4.2"), (TAG_BODY_LENGTH, "126"), (TAG_MESSAGE_TYPE, "NONE"), (TAG_SEQUENCE_NUMBER, "1")];
    var p := (TAG_SENDER_COMPID, Heavy(c).senderCompId);
    var last := [(TAG_SENDING_TIME, ""), (TAG_TARGET_COMPID, "")];
    HeavyLeading(c);
    FieldsConcat(first, [p] + last);
    FieldsConcat([p], last);
    FieldsOne(p.0, p.1);
    FieldBetween(Fields(first), p.0, p.1, Fields(last));
  }

  lemma HeavySize(c: char)
    requires c != FIX_DELIMITER
    ensures |HeavyBefore()| + |HeavyBehind()| == 41
  {
    HeavyText(c);
    HeavyLength(c);
    var tail := PrintLength(Heavy(c), []);
    TrailerLength(CheckSum(Fields(Leading(Heavy(c), []))));
  }

  /** The sum is far below zero, and the last character moves it. */
  lemma HeavySum(c: char)
    requires c != FIX_DELIMITER
    ensures Printable(Heavy(c), [])
    ensures var around := Sum(HeavyBefore()) + Sum(HeavyBehind());
            Sum(Fields(Leading(Heavy(c), []))) == around - 12800 + Code(c)
  {
    var bulk := seq(100, _ => 128 as char);
    HeavyText(c);
    SumConcat(HeavyBefore() + Heavy(c).senderCompId, HeavyBehind());
    SumConcat(HeavyBefore(), Heavy(c).senderCompId);
    SumConcat(bulk, [c]);
    SumHeavy(bulk);
    assert [c][..0] == "";
  }

  lemma HeavyAround()
    ensures Sum(HeavyBefore()) + Sum(HeavyBehind()) <= 127 * 41
  {
    HeavySize('A');
    SumBound(HeavyBefore());
    SumBound(HeavyBehind());
  }

  lemma HeavyCode(around: int) returns (c: char)
    requires around <= 127 * 41
    ensures c != FIX_DELIMITER && Remainder(around - 12800 + Code(c), 256) <= -100
  {
    c := if Remainder(around - 12800 + Code(128 as char), 256) <= -100 then 128 as char else 228 as char;
  }

  /** One of two characters gives a checksum of four characters. */
  lemma HeavyCheckSum() returns (c: char)
    ensures c != FIX_DELIMITER && Printable(Heavy(c), []) && |CheckSum(Fields(Leading(Heavy(c), [])))| != 3
  {
    HeavyAround();
    var around := Sum(HeavyBefore()) + Sum(HeavyBehind());
    c := HeavyCode(around);
    HeavyTurns(c, around);
  }

  lemma HeavyTurns(c: char, around: int)
    requires c != FIX_DELIMITER && around == Sum(HeavyBefore()) + Sum(HeavyBehind())
    requires Remainder(around - 12800 + Code(c), 256) <= -100
    ensures Printable(Heavy(c), []) && |CheckSum(Fields(Leading(Heavy(c), [])))| != 3
  {
    HeavySum(c);
    NotThree(Fields(Leading(Heavy(c), [])), around - 12800 + Code(c));
  }

  lemma NotThree(text: string, sum: int)
    requires Sum(text) == sum && Remainder(sum, 256) <= -100
    ensures |CheckSum(text)| != 3
  {
    CheckSumWidth(text);
  }

  /** There are messages with a checksum of four characters; such a message is not received exactly although its
      opening fits. */
  lemma HeavyNotReceived(rest: string, stack: string) returns (c: char)
    requires |stack| == STACK_BUFFER_SIZE
    ensures c != FIX_DELIMITER && Printable(Heavy(c), [])
    ensures Fits(HeadOf(Heavy(c), []).version, HeadOf(Heavy(c), []).length)
    ensures |CheckSum(Fields(Leading(Heavy(c), [])))| != 3
    ensures ReceiveOne(EMPTY, Print(Heavy(c), []) + rest, stack).1 != |Print(Heavy(c), [])|
  {
    c := HeavyCheckSum();
    HeavyLength(c);
    ReceivesExactly(Heavy(c), [], rest, stack);
  }

  lemma TakesExactly(text: string, rest: string, start: nat, length: nat, trailer: nat, stack: string)
    requires |stack| == STACK_BUFFER_SIZE && Takes(text, rest, start, length, trailer, stack)
    requires trailer >= TRAILER_SIZE && start > 0
    ensures ReceiveOne(EMPTY, text + rest, stack).1 == |text| <==>
            trailer == TRAILER_SIZE && (start <= 18 || (start == 19 && stack[INITIAL_BUFFER_SIZE] == '5'))
  {
  }

  /** The bytes that one call takes from a stream that opens like a message. */
  lemma TakenOpening(stream: string, v: string, d: string, tail: string, length: nat, m: Msg, stack: string, all: nat)
    requires stream == Opening(v, d, tail)
    requires Quiet(v) && FIX_DELIMITER !in d && StoI(d) == Some(length) && |stack| == STACK_BUFFER_SIZE
    requires |v| + |d| <= 14 && 20 <= length && length + TRAILER_SIZE <= 2 + |tail|
    requires all == FoundStart(BodyStart(v, d), stack) + length + TRAILER_SIZE
    ensures all <= |stream| && ReceiveOne(m, stream, stack) == (Parsed(ParseOne(m, stream[..all]), all), all)
  {
    OpeningAt(v, d, tail);
    MeasurePrinted(stack, v, d, tail, length);
    TakenMeasured(m, stream, stack, length, FoundStart(BodyStart(v, d), stack), all);
  }

  lemma TakenMeasured(m: Msg, stream: string, stack: string, length: nat, found: nat, all: nat)
    requires |stack| == STACK_BUFFER_SIZE && INITIAL_BUFFER_SIZE <= |stream| && found <= INITIAL_BUFFER_SIZE
    requires var n := INITIAL_BUFFER_SIZE; Measure(stream[..n] + stack[n..], n, 0, 0) == Some((length, found))
    requires 20 <= length <= INT_MAX && all == found + length + TRAILER_SIZE <= |stream|
    ensures ReceiveOne(m, stream, stack) == (Parsed(ParseOne(m, stream[..all]), all), all)
  {
    ReceivesMeasured(m, stream, stack, length, found);
    MeasuredAll(m, stream, length, found);
  }

  lemma ReceivesMeasured(m: Msg, stream: string, stack: string, length: nat, found: nat)
    requires |stack| == STACK_BUFFER_SIZE && INITIAL_BUFFER_SIZE <= |stream| && found <= INITIAL_BUFFER_SIZE
    requires var n := INITIAL_BUFFER_SIZE; Measure(stream[..n] + stack[n..], n, 0, 0) == Some((length, found))
    ensures ReceiveOne(m, stream, stack) == ReceiveMeasured(m, stream, INITIAL_BUFFER_SIZE, Some((length, found)))
  {
  }

  lemma MeasuredAll(m: Msg, stream: string, length: nat, found: nat)
    requires 20 <= length <= INT_MAX && found <= INITIAL_BUFFER_SIZE <= |stream|
    requires found + length + TRAILER_SIZE <= |stream|
    ensures var all := found + length + TRAILER_SIZE;
            ReceiveMeasured(m, stream, INITIAL_BUFFER_SIZE, Some((length, found))) ==
            (Parsed(ParseOne(m, stream[..all]), all), all)
  {
    WantsAll(length, found);
  }

  lemma WantsAll(length: nat, found: nat)
    requires 20 <= length <= INT_MAX && found <= INITIAL_BUFFER_SIZE
    ensures Remaining(length, INITIAL_BUFFER_SIZE, found) == length - (INITIAL_BUFFER_SIZE - found) + TRAILER_SIZE
  {
  }

  /** One call on a text that is followed by others; `trailer` is all that tag 9 does not count. */
  ghost predicate Takes(text: string, rest: string, start: nat, length: nat, trailer: nat, stack: string)
    requires |stack| == STACK_BUFFER_SIZE
  {
    var stream := text + rest;
    var all := FoundStart(start, stack) + length + TRAILER_SIZE;
    && |text| == start + length + trailer && all <= |stream|
    && ReceiveOne(EMPTY, stream, stack) == (Parsed(ParseOne(EMPTY, stream[..all]), all), all)
  }

  lemma TakesOpening(text: string, rest: string, v: string, d: string, tail: string, length: nat, trailer: nat,
                     stack: string)
    requires Quiet(v) && FIX_DELIMITER !in d && StoI(d) == Some(length) && |stack| == STACK_BUFFER_SIZE
    requires |v| + |d| <= 14 && 20 <= length && trailer >= TRAILER_SIZE
    requires text == Opening(v, d, tail) && 2 + |tail| == length + trailer
    ensures Takes(text, rest, BodyStart(v, d), length, trailer, stack)
  {
    OpeningAt(v, d, tail);
    OpeningMore(v, d, tail, rest);
    TakenOpening(text + rest, v, d, tail + rest, length, EMPTY, stack,
                 FoundStart(BodyStart(v, d), stack) + length + TRAILER_SIZE);
  }

  lemma TakesPrint(m: Msg, order: seq<int>, rest: string, stack: string)
    requires Printable(m, order) && Sized(m, order) && |stack| == STACK_BUFFER_SIZE
    requires |HeadOf(m, order).version| + |HeadOf(m, order).length| <= 14
    ensures Takes(Print(m, order), rest, BodyStart(HeadOf(m, order).version, HeadOf(m, order).length),
                  |Fields(Counted(m, order))|, 4 + |CheckSum(Fields(Leading(m, order)))|, stack)
  {
    var h := HeadOf(m, order);
    var checksum, counted := CheckSum(Fields(Leading(m, order))), Fields(Counted(m, order));
    var tail := PrintOpening(m, order);
    TrailerLength(checksum);
    CheckSumLength(Fields(Leading(m, order)));
    Longer("35", tail, counted, Field(TAG_BODY_CHECKSUM, checksum));
    LengthRead(m, order);
    TakesOpening(Print(m, order), rest, h.version, h.length, tail, |counted|, 4 + |checksum|, stack);
  }

  lemma Longer(a: string, b: string, c: string, d: string)
    requires a + b == c + d
    ensures |a| + |b| == |c| + |d|
  {
    assert |a + b| == |c + d|;
  }

  lemma OpeningMore(v: string, d: string, tail: string, rest: string)
    ensures Opening(v, d, tail) + rest == Opening(v, d, tail + rest)
  {
  }

  /** A 7-bit message that fits is received as sent, whatever the stack held, and the stream is left at the next. */
  lemma ReceivesPrinted(j: Sent, rest: string, stack: string)
    requires Framed(j) && |stack| == STACK_BUFFER_SIZE
    ensures ReceiveOne(EMPTY, PrintJob(j) + rest, stack) == (Got(ReceivedJob(j), |PrintJob(j)|), |PrintJob(j)|)
  {
    TakesPrint(j.msg, j.order, rest, stack);
    SevenBitTrailer(j.msg, j.order);
    ParsePrinted(j.msg, j.order);
    TakesWhole(PrintJob(j), rest, BodyStart(HeadOf(j.msg, j.order).version, HeadOf(j.msg, j.order).length),
               |Fields(Counted(j.msg, j.order))|, stack, ReceivedJob(j));
  }

  lemma TakesWhole(text: string, rest: string, start: nat, length: nat, stack: string, m: Msg)
    requires |stack| == STACK_BUFFER_SIZE && Takes(text, rest, start, length, TRAILER_SIZE, stack) && start <= 18
    requires ParseOne(EMPTY, text) == Some(m)
    ensures ReceiveOne(EMPTY, text + rest, stack) == (Got(m, |text|), |text|)
  {
    assert (text + rest)[..|text|] == text;
  }

  /** When the stream ends inside such a message, behind its first 20 bytes, the call is told so if nothing follows them;
      else it parses what came and does not notice. */
  lemma CutShort(j: Sent, k: nat, stack: string)
    requires Framed(j) && INITIAL_BUFFER_SIZE <= k < |PrintJob(j)| && |stack| == STACK_BUFFER_SIZE
    ensures ReceiveOne(EMPTY, PrintJob(j)[..k], stack) ==
            if k == 20 then (Closed, 20)
            else (match ParseOne(EMPTY, PrintJob(j)[..k]) case None => Threw case Some(m) => Got(m, k), k)
  {
    var h, counted := HeadOf(j.msg, j.order), Fields(Counted(j.msg, j.order));
    var tail := PrintOpening(j.msg, j.order);
    var checksum := CheckSum(Fields(Leading(j.msg, j.order)));
    LengthRead(j.msg, j.order);
    SevenBitTrailer(j.msg, j.order);
    TrailerLength(checksum);
    Longer("35", tail, counted, Field(TAG_BODY_CHECKSUM, checksum));
    CutOpening(h.version, h.length, tail, |counted|, k, stack);
  }

  lemma CutOpening(v: string, d: string, tail: string, length: nat, k: nat, stack: string)
    requires Quiet(v) && FIX_DELIMITER !in d && StoI(d) == Some(length) && |v| + |d| <= 12 && |stack| == STACK_BUFFER_SIZE
    requires 2 + |tail| == length + TRAILER_SIZE && 20 <= length <= INT_MAX
    requires INITIAL_BUFFER_SIZE <= k < |Opening(v, d, tail)|
    ensures var stream := Opening(v, d, tail)[..k];
            ReceiveOne(EMPTY, stream, stack) ==
            if k == 20 then (Closed, 20) else (Parsed(ParseOne(EMPTY, stream), k), k)
  {
    var stream, start := Opening(v, d, tail)[..k], BodyStart(v, d);
    OpeningAt(v, d, tail);
    var part := tail[..k - start - 2];
    assert Opening(v, d, part) == stream;
    OpeningAt(v, d, part);
    MeasurePrinted(stack, v, d, part, length);
    ReceivesMeasured(EMPTY, stream, stack, length, start);
    WantsAll(length, start);
    CutRest(stream, length - (INITIAL_BUFFER_SIZE - start) + TRAILER_SIZE, k);
  }

  lemma CutRest(stream: string, want: nat, k: nat)
    requires INITIAL_BUFFER_SIZE <= k == |stream| < INITIAL_BUFFER_SIZE + want
    ensures ReceiveRest(EMPTY, stream, INITIAL_BUFFER_SIZE, want) ==
            if k == INITIAL_BUFFER_SIZE then (Closed, k) else (Parsed(ParseOne(EMPTY, stream), k), k)
  {
    assert stream[..k] == stream;
  }

  /** A stream that has ended. */
  lemma ReceivesNothing(m: Msg, stack: string)
    requires |stack| == STACK_BUFFER_SIZE
    ensures ReceiveOne(m, "", stack) == (Closed, 0)
  {
  }

  lemma SevenBitTrailer(m: Msg, order: seq<int>)
    requires Tabled(m) && (forall k | 0 <= k < |order| :: order[k] in m.body) && SevenBit(Print(m, order))
    ensures |CheckSum(Fields(Leading(m, order)))| == 3
  {
    CheckSumWidth(Fields(Leading(m, order)));
    SevenBitPart(m, order);
    SumSevenBit(Fields(Leading(m, order)));
  }

  lemma SevenBitPart(m: Msg, order: seq<int>)
    requires Tabled(m) && (forall k | 0 <= k < |order| :: order[k] in m.body) && SevenBit(Print(m, order))
    ensures SevenBit(Fields(Leading(m, order)))
  {
    var p, f := Print(m, order), Fields(Leading(m, order));
    forall i | 0 <= i < |f| ensures f[i] as int < 128 {
      assert p[i] == f[i];
    }
  }

  /** What the caller can see before sending. */
  ghost predicate Framed(j: Sent) {
    && Sized(j.msg, j.order) && SevenBit(PrintJob(j))
    && Fits(HeadOf(j.msg, j.order).version, HeadOf(j.msg, j.order).length)
  }

  // ----- Calls in a row -----

  /** What the stack holds before a call. */
  type Stack = s: string | |s| == STACK_BUFFER_SIZE witness seq(STACK_BUFFER_SIZE, _ => ' ')

  /** The outcomes of one call per element of `stacks`, and what is left of the stream. */
  function ReceiveMany(stream: string, stacks: seq<Stack>): (r: (seq<Receipt>, string))
    decreases |stacks|
  {
    if stacks == [] then ([], stream)
    else
      var one := ReceiveOne(EMPTY, stream, stacks[0]);
      var more := ReceiveMany(stream[one.1..], stacks[1..]);
      ([one.0] + more.0, more.1)
  }

  ghost function Receipts(jobs: seq<Sent>): seq<Receipt> {
    if jobs == [] then [] else [Got(ReceivedJob(jobs[0]), |PrintJob(jobs[0])|)] + Receipts(jobs[1..])
  }

  /** Every job is framed. */
  ghost predicate AllFramed(jobs: seq<Sent>) {
    jobs == [] || (Framed(jobs[0]) && AllFramed(jobs[1..]))
  }

  /** Messages sent back to back are received one per call. */
  lemma {:induction false} ReceivesAll(jobs: seq<Sent>, rest: string, stacks: seq<Stack>)
    requires AllFramed(jobs) && |stacks| == |jobs|
    ensures ReceiveMany(PrintAll(jobs) + rest, stacks) == (Receipts(jobs), rest)
    decreases |jobs|
  {
    if jobs == [] {
      assert PrintAll(jobs) + rest == rest;
    } else {
      PrintFirst(jobs, rest);
      ReceivesFirst(jobs[0], PrintAll(jobs[1..]) + rest, stacks);
      ReceivesAll(jobs[1..], rest, stacks[1..]);
    }
  }

  lemma PrintFirst(jobs: seq<Sent>, rest: string)
    requires jobs != []
    ensures PrintAll(jobs) + rest == PrintJob(jobs[0]) + (PrintAll(jobs[1..]) + rest)
  {
    Associative(PrintJob(jobs[0]), PrintAll(jobs[1..]), rest);
  }

  lemma ReceivesFirst(j: Sent, more: string, stacks: seq<Stack>)
    requires Framed(j) && stacks != []
    ensures var others := ReceiveMany(more, stacks[1..]);
            ReceiveMany(PrintJob(j) + more, stacks) == ([Got(ReceivedJob(j), |PrintJob(j)|)] + others.0, others.1)
  {
    ReceivesPrinted(j, more, stacks[0]);
    assert (PrintJob(j) + more)[|PrintJob(j)|..] == more;
  }

  // ----- The code -----

  /** A connection whose reads wait for all the bytes asked for, or for the end of the stream. */
  class Connection {
    var incoming: string

    constructor (incoming: string)
      ensures this.incoming == incoming
    {
      this.incoming := incoming;
    }

    method Receive(buffer: array<char>, offset: nat, count: nat) returns (size: nat)
      requires offset + Min(count, |incoming|) <= buffer.Length
      modifies this, buffer
      ensures size == Min(count, |old(incoming)|) && incoming == old(incoming)[size..]
      ensures buffer[..] == old(buffer[..offset]) + old(incoming)[..size] + old(buffer[offset + size..])
    {
      size := Min(count, |incoming|);
      for i := 0 to size
        invariant incoming == old(incoming)
        invariant forall k | 0 <= k < buffer.Length ::
          buffer[k] == if offset <= k < offset + i then incoming[k - offset] else old(buffer[k])
      {
        buffer[offset + i] := incoming[i];
      }
      incoming := incoming[size..];
    }
  }

  /** One turn of the loop at a length field. */
  lemma MeasureLength(buf: string, n: nat, i: nat, length: nat, end: nat)
    requires i < n < |buf| && At(buf, i, '9', FIX_EQUALS) && i + 2 <= n && end == NextDelimiter(buf, i + 2, n) < n
    ensures StoI(buf[i + 2..end]) == None ==> Measure(buf, n, i, length) == None
    ensures StoI(buf[i + 2..end]).Some? ==>
              Measure(buf, n, i, length) == Measure(buf, n, end + 1, ToSize(StoI(buf[i + 2..end]).value))
  {
  }

  /** The other turns. */
  lemma MeasureOther(buf: string, n: nat, i: nat, length: nat)
    requires i < n < |buf| && !(At(buf, i, '9', FIX_EQUALS) && i + 2 <= n && NextDelimiter(buf, i + 2, n) < n)
    ensures Measure(buf, n, i, length) ==
            if At(buf, i, '3', '5') then Some((length, i)) else Measure(buf, n, i + 1, length)
  {
  }

  /** The scanning loops of `receive`, which only read the buffer; false when stoi throws. */
  method FindBody(stackBuffer: string, receivedSize: nat)
    returns (ok: bool, fixBodyLength: nat, receivedBodyStartIndex: nat)
    requires receivedSize < |stackBuffer|
    ensures Measure(stackBuffer, receivedSize, 0, 0) ==
            if ok then Some((fixBodyLength, receivedBodyStartIndex)) else None
  {
    ghost var n := receivedSize;
    ghost var goal := Measure(stackBuffer, n, 0, 0);
    fixBodyLength, receivedBodyStartIndex := 0, 0;
    var i := 0;
    while i < receivedSize
      invariant i <= n && receivedBodyStartIndex == 0
      invariant Measure(stackBuffer, n, i, fixBodyLength) == goal
    {
      var found;
      ok, found, i, fixBodyLength := Look(stackBuffer, receivedSize, i, fixBodyLength);
      if !ok {
        return;
      }
      if found {
        receivedBodyStartIndex := i;
        break;
      }
      i := i + 1;
    }
    ok := true;
  }

  /** One turn of the outer loop: a length is read, and the body may begin here. */
  method Look(stackBuffer: string, receivedSize: nat, i0: nat, length0: nat)
    returns (ok: bool, found: bool, i: nat, length: nat)
    requires i0 < receivedSize < |stackBuffer|
    ensures i0 <= i < receivedSize
    ensures Measure(stackBuffer, receivedSize, i0, length0) ==
            if !ok then None else if found then Some((length, i)) else Measure(stackBuffer, receivedSize, i + 1, length)
  {
    ok, found, i, length := true, false, i0, length0;
    var number, end := FindLength(stackBuffer, i, receivedSize);
    if end < receivedSize {
      MeasureLength(stackBuffer, receivedSize, i, length, end);
      if number == None {
        return false, false, i, length;
      }
      length := ToSize(number.value);
      i := end;
    } else {
      MeasureOther(stackBuffer, receivedSize, i, length);
    }
    found := stackBuffer[i] == '3' && stackBuffer[i + 1] == '5';
  }

  /** A length field that begins here and ends in what was received, as stoi reads it. */
  method FindLength(stackBuffer: string, i: nat, receivedSize: nat) returns (number: Option<int>, end: nat)
    requires i < receivedSize < |stackBuffer|
    ensures end < receivedSize <==> At(stackBuffer, i, '9', FIX_EQUALS) && i + 2 <= receivedSize
                                    && NextDelimiter(stackBuffer, i + 2, receivedSize) < receivedSize
    ensures end < receivedSize ==>
              && i + 2 <= end == NextDelimiter(stackBuffer, i + 2, receivedSize) && stackBuffer[end] == FIX_DELIMITER
              && number == StoI(stackBuffer[i + 2..end])
  {
    number, end := None, receivedSize;
    if stackBuffer[i] == '9' && stackBuffer[i + 1] == FIX_EQUALS {
      end := FindDelimiter(stackBuffer, i + 2, receivedSize);
      if end < receivedSize {
        number := StoI(stackBuffer[i + 2..end]);
      }
    }
  }

  /** The inner loop: up to the delimiter, or the end of what was received. */
  method FindDelimiter(buffer: string, from: nat, receivedSize: nat) returns (j: nat)
    requires from <= receivedSize + 1 && receivedSize <= |buffer|
    ensures if from <= receivedSize then j == NextDelimiter(buffer, from, receivedSize) else j == from
  {
    j := from;
    while j < receivedSize
      invariant from <= receivedSize ==>
        j <= receivedSize && NextDelimiter(buffer, from, receivedSize) == NextDelimiter(buffer, j, receivedSize)
      invariant from > receivedSize ==> j == from
    {
      if buffer[j] == FIX_DELIMITER {
        break;
      }
      j := j + 1;
    }
  }

  /** One call; `stack` is what the stack buffer held on entry. */
  method Receive(connection: Connection, message: FixMessage) returns (r: Receipt, ghost stack: string)
    modifies connection, message
    ensures |stack| == STACK_BUFFER_SIZE
    ensures (r, |old(connection.incoming)| - |connection.incoming|) ==
            ReceiveOne(old(message.View()), old(connection.incoming), stack)
    ensures connection.incoming ==
            old(connection.incoming)[ReceiveOne(old(message.View()), old(connection.incoming), stack).1..]
    ensures r.Got? ==> message.View() == r.msg
  {
    var stackBuffer := new char[STACK_BUFFER_SIZE];
    stack := stackBuffer[..];
    ghost var stream := connection.incoming;
    var receivedSize := connection.Receive(stackBuffer, 0, INITIAL_BUFFER_SIZE);
    if receivedSize <= 0 {
      return Closed, stack;
    }
    assert stackBuffer[..] == stream[..receivedSize] + stack[receivedSize..];
    var found, fixBodyLength, receivedBodyStartIndex := FindBody(stackBuffer[..], receivedSize);
    if !found {
      return Threw, stack;
    }
    assert ReceiveOne(message.View(), stream, stack) ==
           ReceiveMeasured(message.View(), stream, receivedSize, Some((fixBodyLength, receivedBodyStartIndex)));
    r := ReadMeasured(connection, message, stackBuffer, receivedSize, fixBodyLength, receivedBodyStartIndex, stream);
  }

  /** The second read of a call, sized by what the first one found. */
  method ReadMeasured(connection: Connection, message: FixMessage, stackBuffer: array<char>, receivedSize: nat,
                      fixBodyLength: nat, receivedBodyStartIndex: nat, ghost stream: string) returns (r: Receipt)
    requires stackBuffer.Length == STACK_BUFFER_SIZE && 0 < receivedSize <= Min(INITIAL_BUFFER_SIZE, |stream|)
    requires receivedBodyStartIndex <= receivedSize
    requires connection.incoming == stream[receivedSize..] && stackBuffer[..receivedSize] == stream[..receivedSize]
    modifies connection, message, stackBuffer
    ensures var spec := ReceiveMeasured(old(message.View()), stream, receivedSize,
                                        Some((fixBodyLength, receivedBodyStartIndex)));
            r == spec.0 && connection.incoming == stream[spec.1..]
    ensures r.Got? ==> message.View() == r.msg
  {
    var remainingBytes := Remaining(fixBodyLength, receivedSize, receivedBodyStartIndex);
    if remainingBytes + INITIAL_BUFFER_SIZE >= SIZE_MODULUS {
      return Overrun;
    }
    r := ReadOn(connection, message, stackBuffer, receivedSize, remainingBytes, stream);
  }

  lemma RestIs(m: Msg, stream: string, n: nat, want: nat)
    requires n <= |stream|
    ensures var all := n + Min(want, |stream| - n);
            ReceiveRest(m, stream, n, want) ==
            if all == n then (Closed, n) else (Parsed(ParseOne(m, stream[..all]), all), all)
  {
  }

  /** The rest of a message: into the stack buffer if it fits, else into a buffer of its own. */
  method ReadOn(connection: Connection, message: FixMessage, stackBuffer: array<char>, actual: nat,
                remainingBytes: nat, ghost stream: string) returns (r: Receipt)
    requires stackBuffer.Length == STACK_BUFFER_SIZE && 0 < actual <= Min(INITIAL_BUFFER_SIZE, |stream|)
    requires connection.incoming == stream[actual..] && stackBuffer[..actual] == stream[..actual]
    modifies connection, message, stackBuffer
    ensures r == ReceiveRest(old(message.View()), stream, actual, remainingBytes).0
    ensures connection.incoming == stream[ReceiveRest(old(message.View()), stream, actual, remainingBytes).1..]
    ensures r.Got? ==> message.View() == r.msg
  {
    var size, ok;
    ghost var all := actual + Min(remainingBytes, |stream| - actual);
    ghost var m := message.View();
    RestIs(m, stream, actual, remainingBytes);
    if remainingBytes + INITIAL_BUFFER_SIZE > STACK_BUFFER_SIZE {
      var heapBuffer := new char[remainingBytes];
      size := connection.Receive(heapBuffer, 0, remainingBytes);
      if size <= 0 {
        return Closed;
      }
      assert heapBuffer[..size] == stream[actual..all] && stackBuffer[..actual] == stream[..actual];
      assert stream[..actual] + stream[actual..all] == stream[..all];
      ok := ParseFromMultipleBuffers(message, stackBuffer, actual, heapBuffer, size);
    } else {
      size := connection.Receive(stackBuffer, actual, remainingBytes);
      if size <= 0 {
        return Closed;
      }
      assert stackBuffer[..actual + size] == stream[..all];
      ok := ParseFromBuffer(message, stackBuffer, actual + size);
    }
    r := if ok then Got(message.View(), actual + size) else Threw;
  }
}
