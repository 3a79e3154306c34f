/** A FIX message: header fields, body tags, printing (`source/fix/fix_message.cpp`). The order in which the
    hash map enumerates its keys is a parameter. */
module FixMessages {
  import opened Integers
  import opened Wrappers
  import opened Text
  import opened FixConstants

  /** The field values of a message. */
  datatype Msg = Msg(
    fixVersion: nat, sequenceNumber: nat, messageType: nat,
    senderCompId: string, targetCompId: string, sendingTime: string,
    body: map<int, string>)

  const EMPTY := Msg(0, 1, 0, "", "", "", map[])

  function WithTag(m: Msg, tag: int, value: string): Msg {
    m.(body := m.body[tag := value])
  }

  // ----- Header tags -----

  /** One header tag moved out of the body by `initialiseHeader`; None when stoi throws. */
  function TakeTag(m: Msg, tag: int): Option<Msg> {
    if tag !in m.body then Some(m)
    else
      var value, rest := m.body[tag], m.(body := m.body - {tag});
      if tag == TAG_VERSION then Some(rest.(fixVersion := FixVersionFromString(value)))
      else if tag == TAG_MESSAGE_TYPE then Some(rest.(messageType := MessageTypeFromString(value)))
      else if tag == TAG_SEQUENCE_NUMBER then
        (match StoI(value) case None => None case Some(n) => Some(rest.(sequenceNumber := ToSize(n))))
      else if tag == TAG_SENDING_TIME then Some(rest.(sendingTime := value))
      else if tag == TAG_SENDER_COMPID then Some(rest.(senderCompId := value))
      else Some(rest.(targetCompId := value))
  }

  function Then(m: Option<Msg>, tag: int): Option<Msg> {
    match m case None => None case Some(n) => TakeTag(n, tag)
  }

  /** The header tags, in the order in which `initialiseHeader` looks for them. */
  function Header(m: Msg): Option<Msg> {
    Then(Then(Then(Then(Then(TakeTag(m, TAG_VERSION), TAG_MESSAGE_TYPE), TAG_SEQUENCE_NUMBER),
                   TAG_SENDING_TIME), TAG_SENDER_COMPID), TAG_TARGET_COMPID)
  }

  /** These tags have left the body for their fields; fields without a tag are as they were, as are the other tags. */
  predicate Took(m: Msg, h: Msg, tags: set<int>) {
    && h.body == m.body - tags
    && h.fixVersion == (if 8 in tags && 8 in m.body then FixVersionFromString(m.body[8]) else m.fixVersion)
    && h.messageType == (if 35 in tags && 35 in m.body then MessageTypeFromString(m.body[35]) else m.messageType)
    && (34 in tags && 34 in m.body ==> StoI(m.body[34]) != None)
    && h.sequenceNumber ==
       (if 34 in tags && 34 in m.body then ToSize(StoI(m.body[34]).value) else m.sequenceNumber)
    && h.sendingTime == (if 52 in tags && 52 in m.body then m.body[52] else m.sendingTime)
    && h.senderCompId == (if 49 in tags && 49 in m.body then m.body[49] else m.senderCompId)
    && h.targetCompId == (if 56 in tags && 56 in m.body then m.body[56] else m.targetCompId)
  }

  lemma MinusOne(body: map<int, string>, tags: set<int>, tag: int)
    ensures body - tags - {tag} == body - (tags + {tag})
    ensures tag !in body ==> body - tags == body - (tags + {tag})
  {
  }

  lemma TookOne(m: Msg, h: Msg, tags: set<int>, tag: int)
    requires Took(m, h, tags) && tag !in tags && tag in {8, 35, 34, 52, 49, 56}
    ensures TakeTag(h, tag) == None <==> tag == 34 && 34 in m.body && StoI(m.body[34]) == None
    ensures TakeTag(h, tag) != None ==> Took(m, TakeTag(h, tag).value, tags + {tag})
  {
    MinusOne(m.body, tags, tag);
  }

  /** What becomes of every message: it fails exactly when tag 34 is there and is no int; else the six header tags that
      are there leave the body for their fields. */
  lemma HeaderExactly(m: Msg)
    ensures Header(m) == None <==> 34 in m.body && StoI(m.body[34]) == None
    ensures Header(m) != None ==> Took(m, Header(m).value, {8, 35, 34, 52, 49, 56})
  {
    StartTook(m);
    var h := Then(Then(TakeTag(m, 8), 35), 34);
    if h != None { IdsTook(m, h.value); }
  }

  lemma StartTook(m: Msg)
    ensures var h := Then(Then(TakeTag(m, 8), 35), 34);
            && (h == None <==> 34 in m.body && StoI(m.body[34]) == None)
            && (h != None ==> Took(m, h.value, {8, 35, 34}))
  {
    assert m.body - {} == m.body;
    TookOne(m, m, {}, 8);
    var h1 := TakeTag(m, 8).value;
    TookOne(m, h1, {8}, 35);
    var h2 := TakeTag(h1, 35).value;
    TookOne(m, h2, {8, 35}, 34);
    assert {8, 35} + {34} == {8, 35, 34};
  }

  lemma IdsTook(m: Msg, h: Msg)
    requires Took(m, h, {8, 35, 34})
    ensures var ids := Then(Then(TakeTag(h, 52), 49), 56);
            ids != None && Took(m, ids.value, {8, 35, 34, 52, 49, 56})
  {
    TookNext(m, Some(h), {8, 35, 34}, 52, {8, 35, 34, 52});
    TookNext(m, Then(Some(h), 52), {8, 35, 34, 52}, 49, {8, 35, 34, 52, 49});
    TookNext(m, Then(Then(Some(h), 52), 49), {8, 35, 34, 52, 49}, 56, {8, 35, 34, 52, 49, 56});
  }

  lemma TookNext(m: Msg, h: Option<Msg>, tags: set<int>, tag: int, next: set<int>)
    requires h != None && Took(m, h.value, tags)
    requires (tag == 52 || tag == 49 || tag == 56) && tag !in tags && next == tags + {tag}
    ensures Then(h, tag) != None && Took(m, Then(h, tag).value, next)
  {
    TookOne(m, h.value, tags, tag);
  }

  // ----- Printing -----

  /** The enumeration of a map lists every key once. */
  ghost predicate Enumerates(order: seq<int>, body: map<int, string>) {
    && (forall i, j | 0 <= i < j < |order| :: order[i] != order[j])
    && (forall k | 0 <= k < |order| :: order[k] in body)
    && (forall key | key in body :: key in order)
  }

  predicate Tabled(m: Msg) {
    m.fixVersion < |VERSION_STRINGS| && m.messageType < |MESSAGE_TYPE_STRINGS|
  }

  function Field(tag: int, value: string): string {
    ToDec(tag) + [FIX_EQUALS] + value + [FIX_DELIMITER]
  }

  /** Fields one after the other. */
  function Fields(pairs: seq<(int, string)>): string {
    if pairs == [] then "" else Fields(pairs[..|pairs| - 1]) + Field(pairs[|pairs| - 1].0, pairs[|pairs| - 1].1)
  }

  function Body(body: map<int, string>, order: seq<int>): (pairs: seq<(int, string)>)
    requires forall k | 0 <= k < |order| :: order[k] in body
    ensures |pairs| == |order|
  {
    seq(|order|, i requires 0 <= i < |order| => (order[i], body[order[i]]))
  }

  /** The tags counted by tag 9, in printing order. */
  function Counted(m: Msg, order: seq<int>): seq<(int, string)>
    requires Tabled(m) && forall k | 0 <= k < |order| :: order[k] in m.body
  {
    [(TAG_MESSAGE_TYPE, MESSAGE_TYPE_STRINGS[m.messageType]), (TAG_SEQUENCE_NUMBER, ToDec(m.sequenceNumber)),
     (TAG_SENDER_COMPID, m.senderCompId), (TAG_SENDING_TIME, m.sendingTime), (TAG_TARGET_COMPID, m.targetCompId)]
    + Body(m.body, order)
  }

  /** Everything before the checksum. */
  function Leading(m: Msg, order: seq<int>): seq<(int, string)>
    requires Tabled(m) && forall k | 0 <= k < |order| :: order[k] in m.body
  {
    [(TAG_VERSION, VERSION_STRINGS[m.fixVersion]), (TAG_BODY_LENGTH, ToDec(|Fields(Counted(m, order))|))]
    + Counted(m, order)
  }

  /** A byte as the signed char that the sum adds. */
  function Code(c: char): int {
    var k := c as int % 256;
    if k < 128 then k else k - 256
  }

  function Sum(s: string): int {
    if s == [] then 0 else Sum(s[..|s| - 1]) + Code(s[|s| - 1])
  }

  /** The C++ remainder. */
  function Remainder(a: int, b: int): int
    requires b > 0
  {
    if a >= 0 then a % b else -((-a) % b)
  }

  function CheckSum(s: string): string {
    PadLeft(ToDec(Remainder(Sum(s), 256)), 3, '0')
  }

  function Print(m: Msg, order: seq<int>): string
    requires Tabled(m) && forall k | 0 <= k < |order| :: order[k] in m.body
  {
    Fields(Leading(m, order)) + Field(TAG_BODY_CHECKSUM, CheckSum(Fields(Leading(m, order))))
  }

  lemma FieldsLast(a: seq<(int, string)>, p: (int, string))
    ensures Fields(a + [p]) == Fields(a) + Field(p.0, p.1)
  {
    assert (a + [p])[..|a|] == a;
  }

  lemma SplitLast<T>(a: seq<T>, b: seq<T>)
    requires b != []
    ensures b[..|b| - 1] + [b[|b| - 1]] == b && (a + b[..|b| - 1]) + [b[|b| - 1]] == a + b
  {
  }

  lemma Associative<T>(a: seq<T>, b: seq<T>, c: seq<T>)
    ensures (a + b) + c == a + (b + c)
  {
  }

  lemma {:induction false} FieldsConcat(a: seq<(int, string)>, b: seq<(int, string)>)
    ensures Fields(a + b) == Fields(a) + Fields(b)
    decreases |b|
  {
    if b == [] {
      assert a + b == a && Fields(a) + "" == Fields(a);
    } else {
      var before, last := b[..|b| - 1], b[|b| - 1];
      FieldsConcat(a, before);
      FieldsLast(before, last);
      FieldsLast(a + before, last);
      SplitLast(a, b);
      Associative(Fields(a), Fields(before), Field(last.0, last.1));
    }
  }

  lemma FieldsStep(all: seq<(int, string)>, k: nat)
    requires k < |all|
    ensures Fields(all[..k + 1]) == Fields(all[..k]) + Field(all[k].0, all[k].1)
  {
    assert all[..k + 1][..k] == all[..k];
  }

  lemma FieldsOne(tag: int, value: string)
    ensures Fields([(tag, value)]) == Field(tag, value)
  {
    assert [(tag, value)][..0] == [];
  }

  /** The checksum has three characters exactly when the remainder is above -100, as it is for 7-bit text. */
  lemma CheckSumWidth(s: string)
    ensures |CheckSum(s)| == 3 <==> Remainder(Sum(s), 256) > -100
  {
    var r := Remainder(Sum(s), 256);
    if r < 0 { DigitsLength(-r); } else { DigitsLength(r); }
  }

  ghost predicate SevenBit(s: string) {
    forall i | 0 <= i < |s| :: s[i] as int < 128
  }

  lemma SumSevenBit(s: string)
    requires SevenBit(s)
    ensures Sum(s) >= 0
  {
  }

  /** The sum does not depend on how the text is cut, so every byte counts once. */
  lemma {:induction false} SumConcat(a: string, b: string)
    ensures Sum(a + b) == Sum(a) + Sum(b)
    decreases |b|
  {
    if b == "" {
      assert a + b == a;
    } else {
      SplitLast(a, b);
      assert (a + b)[..|a + b| - 1] == a + b[..|b| - 1];
      SumConcat(a, b[..|b| - 1]);
    }
  }

  // ----- The sum of the bytes -----

  /** The bytes added up, unsigned. */
  function ByteSum(s: string): nat {
    if s == "" then 0 else s[0] as int + ByteSum(s[1..])
  }

  /** How many bytes have their highest bit set. */
  function HighBytes(s: string): nat {
    if s == "" then 0 else HighBytes(s[1..]) + if s[0] as int >= 128 then 1 else 0
  }

  ghost predicate Bytes(s: string) {
    forall i | 0 <= i < |s| :: s[i] as int < 256
  }

  lemma SumOne(c: char)
    requires c as int < 256
    ensures Sum([c]) == if c as int < 128 then c as int else c as int - 256
  {
    assert [c][..0] == [];
  }

  /** A char is signed, so a byte with its highest bit set counts for 256 less. */
  lemma {:induction false} SumOfBytes(s: string)
    requires Bytes(s)
    ensures Sum(s) == ByteSum(s) - 256 * HighBytes(s)
    decreases |s|
  {
    if s != "" {
      assert s == [s[0]] + s[1..];
      SumConcat([s[0]], s[1..]);
      SumOne(s[0]);
      SumOfBytes(s[1..]);
    }
  }

  lemma {:induction false} NoHighBytes(s: string)
    requires SevenBit(s)
    ensures HighBytes(s) == 0
    decreases |s|
  {
    if s != "" { NoHighBytes(s[1..]); }
  }

  const DIGITS := "0123456789"

  lemma DigitIs(d: nat)
    requires d < 10
    ensures Digit(d) == DIGITS[d]
  {
  }

  /** A number in three digits. */
  function InThree(n: nat): string
    requires n < 1000
  {
    [DIGITS[n / 100], DIGITS[n / 10 % 10], DIGITS[n % 10]]
  }

  lemma ThreeDigits(n: nat)
    requires n < 1000
    ensures PadLeft(ToDec(n), 3, '0') == InThree(n)
  {
    DigitsInThree(n);
    PadThree(ToDec(n), InThree(n));
  }

  lemma PadThree(digits: string, three: string)
    requires 1 <= |digits| <= 3 == |three| && three[3 - |digits|..] == digits
    requires forall i | 0 <= i < 3 - |digits| :: three[i] == '0'
    ensures PadLeft(digits, 3, '0') == three
  {
    var p := PadLeft(digits, 3, '0');
    assert p == p[..3 - |digits|] + digits;
  }

  lemma DigitsInThree(n: nat)
    requires n < 1000
    ensures 1 <= |ToDec(n)| <= 3 && InThree(n)[3 - |ToDec(n)|..] == ToDec(n)
    ensures forall i | 0 <= i < 3 - |ToDec(n)| :: InThree(n)[i] == '0'
  {
    Thirds(n);
    if n >= 100 {
      DigitTriple(n / 100, n / 10 % 10, n % 10);
    } else if n >= 10 {
      TwoDigits(n / 10 % 10, n % 10);
    } else {
      DigitIs(n % 10);
    }
  }

  lemma Thirds(n: nat)
    requires n < 1000
    ensures n / 100 < 10 && n == 100 * (n / 100) + 10 * (n / 10 % 10) + n % 10
    ensures n < 100 ==> n / 100 == 0
    ensures n < 10 ==> n / 10 % 10 == 0
    ensures n / 100 == 0 && n / 10 % 10 == 0 ==> n < 10
  {
    assert n / 10 / 10 == n / 100 && n == 10 * (n / 10) + n % 10;
  }

  lemma TwoDigits(a: nat, b: nat)
    requires 1 <= a < 10 && b < 10
    ensures ToDec(10 * a + b) == [DIGITS[a], DIGITS[b]]
  {
    DigitIs(a);
    DigitIs(b);
    assert Digits(a) == [Digit(a)] && Digits(10 * a + b) == Digits(a) + [Digit(b)];
  }

  lemma DigitTriple(a: nat, b: nat, c: nat)
    requires 1 <= a < 10 && b < 10 && c < 10
    ensures ToDec(100 * a + 10 * b + c) == [DIGITS[a], DIGITS[b], DIGITS[c]]
  {
    TwoDigits(a, b);
    DigitIs(c);
    assert Digits(10 * (10 * a + b) + c) == Digits(10 * a + b) + [Digit(c)];
  }

  /** The text of a checksum over bytes with this sum, so many of them with their highest bit set. */
  predicate Stands(text: string, sum: nat, high: nat) {
    var r := sum % 256;
    text == if sum >= 256 * high || r == 0 then InThree(r)
            else PadLeft("-" + Digits(256 - r), 3, '0')
  }

  lemma RemainderStands(sum: nat, high: nat)
    ensures Stands(PadLeft(ToDec(Remainder(sum - 256 * high, 256)), 3, '0'), sum, high)
  {
    var r := sum % 256;
    SignedRemainder(sum, high);
    if sum >= 256 * high || r == 0 { ThreeDigits(r); }
  }

  /** What the checksum of any bytes is: three digits of the byte sum modulo 256, unless so many bytes have their highest
      bit set that the signed sum is negative; then the remainder is, and is written with its sign. */
  lemma CheckSumExactly(s: string)
    requires Bytes(s)
    ensures Stands(CheckSum(s), ByteSum(s), HighBytes(s))
  {
    SumOfBytes(s);
    CheckSumOf(s, ByteSum(s), HighBytes(s));
  }

  lemma CheckSumOf(s: string, sum: nat, high: nat)
    requires Sum(s) == sum - 256 * high
    ensures Stands(CheckSum(s), sum, high)
  {
    RemainderStands(sum, high);
  }

  lemma SignedRemainder(a: nat, h: nat)
    ensures Remainder(a - 256 * h, 256) == if a >= 256 * h || a % 256 == 0 then a % 256 else a % 256 - 256
  {
  }

  /** Of 7-bit text the checksum is the sum of all bytes modulo 256, in three digits. */
  lemma CheckSumValue(s: string)
    requires SevenBit(s)
    ensures CheckSum(s) == InThree(ByteSum(s) % 256)
  {
    NoHighBytes(s);
    CheckSumExactly(s);
  }

  lemma TakeTarget(m: Msg)
    ensures TakeTag(m, TAG_TARGET_COMPID) ==
            Some(if TAG_TARGET_COMPID !in m.body then m
                 else m.(body := m.body - {TAG_TARGET_COMPID}, targetCompId := m.body[TAG_TARGET_COMPID]))
  {
  }

  // ----- The object -----

  class FixMessage {
    var fixVersion: nat
    var sequenceNumber: nat
    var messageType: nat
    var senderCompId: string
    var targetCompId: string
    var sendingTime: string
    var bodyTagValuePairs: map<int, string>

    function View(): Msg
      reads this
    {
      Msg(fixVersion, sequenceNumber, messageType, senderCompId, targetCompId, sendingTime, bodyTagValuePairs)
    }

    constructor ()
      ensures View() == EMPTY == Msg(0, 1, 0, "", "", "", map[])
    {
      fixVersion, sequenceNumber, messageType := 0, 1, 0;
      senderCompId, targetCompId, sendingTime := "", "", "";
      bodyTagValuePairs := map[];
    }

    method Reset()
      modifies this
      ensures View() == EMPTY == Msg(0, 1, 0, "", "", "", map[])
    {
      fixVersion, messageType, sequenceNumber := 0, 0, 1;
      senderCompId, targetCompId, sendingTime := "", "", "";
      bodyTagValuePairs := map[];
    }

    method SetTag(tag: int, value: string)
      modifies this
      ensures View() == WithTag(old(View()), tag, value)
    {
      bodyTagValuePairs := bodyTagValuePairs[tag := value];
    }

    method RemoveTag(tag: int)
      modifies this
      ensures View() == old(View()).(body := old(View()).body - {tag})
    {
      bodyTagValuePairs := bodyTagValuePairs - {tag};
    }

    /** Moves the header tags out of the body; false when stoi throws. */
    method InitialiseHeader() returns (ok: bool)
      modifies this
      ensures ok == Header(old(View())).Some?
      ensures ok ==> View() == Header(old(View())).value
    {
      ghost var m := View();
      if TAG_VERSION in bodyTagValuePairs {
        fixVersion := FixVersionFromString(bodyTagValuePairs[TAG_VERSION]);
        RemoveTag(TAG_VERSION);
      }
      assert TakeTag(m, TAG_VERSION) == Some(View());
      m := View();
      if TAG_MESSAGE_TYPE in bodyTagValuePairs {
        messageType := MessageTypeFromString(bodyTagValuePairs[TAG_MESSAGE_TYPE]);
        RemoveTag(TAG_MESSAGE_TYPE);
      }
      assert TakeTag(m, TAG_MESSAGE_TYPE) == Some(View());
      m := View();
      if TAG_SEQUENCE_NUMBER in bodyTagValuePairs {
        var n := StoI(bodyTagValuePairs[TAG_SEQUENCE_NUMBER]);
        if n == None {
          return false;
        }
        sequenceNumber := ToSize(n.value);
        RemoveTag(TAG_SEQUENCE_NUMBER);
      }
      assert TakeTag(m, TAG_SEQUENCE_NUMBER) == Some(View());
      m := View();
      InitialiseIds();
      return true;
    }

    method InitialiseIds()
      modifies this
      ensures Some(View()) == Then(Then(TakeTag(old(View()), TAG_SENDING_TIME), TAG_SENDER_COMPID), TAG_TARGET_COMPID)
    {
      ghost var m := View();
      if TAG_SENDING_TIME in bodyTagValuePairs {
        sendingTime := bodyTagValuePairs[TAG_SENDING_TIME];
        RemoveTag(TAG_SENDING_TIME);
      }
      assert TakeTag(m, TAG_SENDING_TIME) == Some(View());
      m := View();
      if TAG_SENDER_COMPID in bodyTagValuePairs {
        senderCompId := bodyTagValuePairs[TAG_SENDER_COMPID];
        RemoveTag(TAG_SENDER_COMPID);
      }
      assert TakeTag(m, TAG_SENDER_COMPID) == Some(View());
      m := View();
      if TAG_TARGET_COMPID in bodyTagValuePairs {
        targetCompId := bodyTagValuePairs[TAG_TARGET_COMPID];
        RemoveTag(TAG_TARGET_COMPID);
      }
      TakeTarget(m);
      assert TakeTag(m, TAG_TARGET_COMPID) == Some(View());
    }

    /** The bytes of the five header tags behind tag 9, counted without building them. */
    method CalculateHeaderLength() returns (headerLength: nat)
      requires Tabled(View())
      ensures headerLength == |Fields(Counted(View(), [])[..5])|
    {
      headerLength := 20;
      headerLength := headerLength + |MESSAGE_TYPE_STRINGS[messageType]|;
      headerLength := headerLength + |ToDec(sequenceNumber)|;
      headerLength := headerLength + |senderCompId|;
      headerLength := headerLength + |sendingTime|;
      headerLength := headerLength + |targetCompId|;
      HeaderLength(View());
    }

    /** Tag 9: the bytes from "35=" up to the trailer. */
    method CalculateBodyLength(order: seq<int>) returns (bodyLength: nat)
      requires Tabled(View()) && Enumerates(order, bodyTagValuePairs)
      ensures bodyLength == |Fields(Counted(View(), order))|
    {
      bodyLength := 0;
      ghost var pairs := Body(bodyTagValuePairs, order);
      for i := 0 to |order|
        invariant bodyLength == |Fields(pairs[..i])|
      {
        FieldsStep(pairs, i);
        var value := bodyTagValuePairs[order[i]];
        bodyLength := bodyLength + |ToDec(order[i])| + 2 + |value|;
      }
      assert pairs[..|order|] == pairs;
      var headerLength := CalculateHeaderLength();
      FieldsConcat(Counted(View(), [])[..5], pairs);
      assert Counted(View(), order) == Counted(View(), [])[..5] + pairs;
      bodyLength := bodyLength + headerLength;
    }

    static method CalculateCheckSum(message: string) returns (checksum: string)
      ensures checksum == CheckSum(message)
      ensures SevenBit(message) ==> checksum == InThree(ByteSum(message) % 256)
    {
      var sum := 0;
      for i := 0 to |message|
        invariant sum == Sum(message[..i])
      {
        assert message[..i + 1][..i] == message[..i];
        sum := sum + Code(message[i]);
      }
      assert message[..|message|] == message;
      sum := Remainder(sum, 256);
      checksum := PadLeft(ToDec(sum), 3, '0');
      if SevenBit(message) { CheckSumValue(message); }
    }

    method ToString(order: seq<int>) returns (output: string)
      requires Tabled(View()) && Enumerates(order, bodyTagValuePairs)
      ensures output == Print(View(), order)
    {
      output := AppendHeaderTags(order);
      output := AppendBodyTags(output, order);
      var checksum := CalculateCheckSum(output);
      output := output + Field(TAG_BODY_CHECKSUM, checksum);
    }

    method AppendHeaderTags(order: seq<int>) returns (output: string)
      requires Tabled(View()) && Enumerates(order, bodyTagValuePairs)
      ensures output == Fields(Leading(View(), order)[..7])
    {
      var bodyLength := CalculateBodyLength(order);
      output := Field(TAG_VERSION, VERSION_STRINGS[fixVersion]);
      output := output + Field(TAG_BODY_LENGTH, ToDec(bodyLength));
      output := output + Field(TAG_MESSAGE_TYPE, MESSAGE_TYPE_STRINGS[messageType]);
      output := output + Field(TAG_SEQUENCE_NUMBER, ToDec(sequenceNumber));
      output := output + Field(TAG_SENDER_COMPID, senderCompId);
      output := output + Field(TAG_SENDING_TIME, sendingTime);
      output := output + Field(TAG_TARGET_COMPID, targetCompId);
      FieldsSeven(Leading(View(), order));
    }

    method AppendBodyTags(header: string, order: seq<int>) returns (output: string)
      requires Tabled(View()) && Enumerates(order, bodyTagValuePairs)
      requires header == Fields(Leading(View(), order)[..7])
      ensures output == Fields(Leading(View(), order))
    {
      output := AppendFields(bodyTagValuePairs, header, order);
      LeadingBody(View(), order);
      FieldsConcat(Leading(View(), order)[..7], Body(bodyTagValuePairs, order));
    }

    /** The loop over the body, behind what precedes it. */
    static method AppendFields(body: map<int, string>, header: string, order: seq<int>) returns (output: string)
      requires forall k | 0 <= k < |order| :: order[k] in body
      ensures output == header + Fields(Body(body, order))
    {
      ghost var pairs := Body(body, order);
      output := header;
      for i := 0 to |order|
        invariant output == header + Fields(pairs[..i])
      {
        var field := Field(order[i], body[order[i]]);
        FieldsStep(pairs, i);
        Associative(header, Fields(pairs[..i]), field);
        output := output + field;
      }
      assert pairs[..|pairs|] == pairs;
    }
  }

  lemma LeadingBody(m: Msg, order: seq<int>)
    requires Tabled(m) && forall k | 0 <= k < |order| :: order[k] in m.body
    ensures |Leading(m, order)| >= 7 && Leading(m, order) == Leading(m, order)[..7] + Body(m.body, order)
  {
  }

  lemma FieldsSeven(all: seq<(int, string)>)
    requires |all| >= 7
    ensures Fields(all[..7]) ==
            Field(all[0].0, all[0].1) + Field(all[1].0, all[1].1) + Field(all[2].0, all[2].1) + Field(all[3].0, all[3].1)
            + Field(all[4].0, all[4].1) + Field(all[5].0, all[5].1) + Field(all[6].0, all[6].1)
  {
    FieldsStep(all, 0);
    FieldsStep(all, 1);
    FieldsStep(all, 2);
    FieldsStep(all, 3);
    FieldsStep(all, 4);
    FieldsStep(all, 5);
    FieldsStep(all, 6);
    assert all[..0] == [] && "" + Field(all[0].0, all[0].1) == Field(all[0].0, all[0].1);
  }

  lemma HeaderLength(m: Msg)
    requires Tabled(m)
    ensures |Fields(Counted(m, [])[..5])| ==
            20 + |MESSAGE_TYPE_STRINGS[m.messageType]| + |ToDec(m.sequenceNumber)| + |m.senderCompId| + |m.sendingTime|
            + |m.targetCompId|
  {
    FiveLengths(Counted(m, []));
  }

  lemma FiveLengths(all: seq<(int, string)>)
    requires |all| >= 5 && forall k | 0 <= k < 5 :: 10 <= all[k].0 < 100
    ensures |Fields(all[..5])| == 20 + |all[0].1| + |all[1].1| + |all[2].1| + |all[3].1| + |all[4].1|
  {
    ThreeLengths(all);
    FieldsLength(all, 3);
    FieldsLength(all, 4);
  }

  lemma ThreeLengths(all: seq<(int, string)>)
    requires |all| >= 3 && forall k | 0 <= k < 3 :: 10 <= all[k].0 < 100
    ensures |Fields(all[..3])| == 12 + |all[0].1| + |all[1].1| + |all[2].1|
  {
    FieldsLength(all, 0);
    FieldsLength(all, 1);
    FieldsLength(all, 2);
    assert all[..0] == [];
  }

  lemma FieldsLength(all: seq<(int, string)>, k: nat)
    requires k < |all| && 10 <= all[k].0 < 100
    ensures |Fields(all[..k + 1])| == |Fields(all[..k])| + 4 + |all[k].1|
  {
    FieldsStep(all, k);
    DigitsLength(all[k].0);
  }

  // ----- The printed texts -----

  lemma TagTexts()
    ensures ToDec(TAG_VERSION) == "8" && ToDec(TAG_BODY_LENGTH) == "9" && ToDec(TAG_BODY_CHECKSUM) == "10"
    ensures ToDec(TAG_MESSAGE_TYPE) == "35" && ToDec(TAG_SEQUENCE_NUMBER) == "34" && ToDec(TAG_SENDER_COMPID) == "49"
    ensures ToDec(TAG_SENDING_TIME) == "52" && ToDec(TAG_TARGET_COMPID) == "56"
  {
    TwoDigits(1, 0);
    TwoDigits(3, 5);
    TwoDigits(3, 4);
    TwoDigits(4, 9);
    TwoDigits(5, 2);
    TwoDigits(5, 6);
  }

  /** SOH, the delimiter. */
  const SOH := [1 as char]

  function Kind(messageType: nat): string
    requires messageType < |MESSAGE_TYPE_STRINGS|
  {
    Field(TAG_MESSAGE_TYPE, MESSAGE_TYPE_STRINGS[messageType])
  }

  /** What each version is printed as. */
  lemma PrintedVersions(version: nat)
    requires 0 < version < |VERSION_STRINGS|
    ensures Field(TAG_VERSION, VERSION_STRINGS[version]) ==
            (match version
             case 1 => "8=FIX.4.0" case 2 => "8=FIX.4.1" case 3 => "8=FIX.4.2" case 4 => "8=FIX.4.3"
             case 5 => "8=FIX.4.4" case 6 => "8=FIX.5.0" case 7 => "8=FIX.5.0SP1" case _ => "8=FIX.5.0SP2") + SOH
  {
    TagTexts();
  }

  /** What each type is printed as. */
  lemma PrintedTypes()
    ensures Kind(LOGON) == "35=A" + SOH && Kind(LOGOFF) == "35=5" + SOH && Kind(TEST_REQUEST) == "35=1" + SOH
    ensures Kind(RESEND_REQUEST) == "35=2" + SOH && Kind(ADMIN_REJECT) == "35=3" + SOH
    ensures Kind(SEQUENCE_RESET) == "35=4" + SOH && Kind(HEARTBEAT) == "35=0" + SOH
    ensures Kind(USER_LOGON) == "35=BE" + SOH && Kind(USER_RESPONSE) == "35=BF" + SOH
    ensures Kind(NEW_ORDER) == "35=D" + SOH && Kind(CANCEL) == "35=F" + SOH
    ensures Kind(EXECUTION_REPORT) == "35=8" + SOH && Kind(BUSINESS_REJECT) == "35=j" + SOH
  {
    TagTexts();
  }

  // ----- One whole message -----

  lemma {:induction false} ByteSumConcat(a: string, b: string)
    ensures ByteSum(a + b) == ByteSum(a) + ByteSum(b)
    decreases |a|
  {
    if a == "" {
      assert a + b == b;
    } else {
      assert (a + b)[1..] == a[1..] + b;
      ByteSumConcat(a[1..], b);
    }
  }

  lemma ByteSumThree(a: char, b: char, c: char)
    ensures ByteSum([a, b, c]) == a as int + b as int + c as int
  {
    assert [a, b, c][1..] == [b, c] && [b, c][1..] == [c] && [c][1..] == [];
    assert ByteSum([c]) == c as int && ByteSum([b, c]) == b as int + c as int;
  }

  /** A text with a field of four characters behind it. */
  lemma ByteSumFour(s: string, a: char, b: char, c: char, d: char)
    requires SevenBit(s) && SevenBit([a, b, c, d])
    ensures ByteSum(s + ([a, b, c, d] + SOH)) == ByteSum(s) + a as int + b as int + c as int + d as int + 1
    ensures SevenBit(s + ([a, b, c, d] + SOH))
  {
    ByteSumConcat(s, [a, b, c, d] + SOH);
    ByteSumThree(b, c, d);
    assert ([a, b, c, d] + SOH) == [a] + ([b, c, d] + SOH);
    ByteSumConcat([a], [b, c, d] + SOH);
    ByteSumConcat([b, c, d], SOH);
    assert SOH[1..] == [] && [a][1..] == [];
  }

  lemma OpeningSum()
    ensures ByteSum("8=FIX.4.2" + SOH) == 543 && SevenBit("8=FIX.4.2" + SOH)
  {
    ByteSumThree('8', '=', 'F');
    ByteSumThree('I', 'X', '.');
    ByteSumThree('4', '.', '2');
    assert "8=FIX.4.2" + SOH == "8=F" + ("IX." + ("4.2" + SOH));
    ByteSumConcat("8=F", "IX." + ("4.2" + SOH));
    ByteSumConcat("IX.", "4.2" + SOH);
    ByteSumConcat("4.2", SOH);
    assert SOH[1..] == [];
  }

  /** A heartbeat of FIX.4.2 up to its checksum. */
  function HeartbeatLead(): string {
    "8=FIX.4.2" + SOH + ("9=25" + SOH) + ("35=0" + SOH) + ("34=1" + SOH) + ("49=X" + SOH) + ("52=T" + SOH)
    + ("56=S" + SOH)
  }

  lemma HeartbeatSum()
    ensures ByteSum(HeartbeatLead()) == 1953 && SevenBit(HeartbeatLead())
  {
    OpeningSum();
    var s := "8=FIX.4.2" + SOH;
    ByteSumFour(s, '9', '=', '2', '5');
    s := s + ("9=25" + SOH);
    ByteSumFour(s, '3', '5', '=', '0');
    s := s + ("35=0" + SOH);
    ByteSumFour(s, '3', '4', '=', '1');
    s := s + ("34=1" + SOH);
    ByteSumFour(s, '4', '9', '=', 'X');
    s := s + ("49=X" + SOH);
    ByteSumFour(s, '5', '2', '=', 'T');
    s := s + ("52=T" + SOH);
    ByteSumFour(s, '5', '6', '=', 'S');
  }

  lemma HeartbeatLength(m: Msg)
    requires m == Msg(3, 1, HEARTBEAT, "X", "S", "T", map[])
    ensures |Fields(Counted(m, []))| == 25
  {
    HeaderLength(m);
    assert Counted(m, [])[..5] == Counted(m, []) && ToDec(1) == "1";
  }

  lemma HeartbeatParts(m: Msg, all: seq<(int, string)>)
    requires m == Msg(3, 1, HEARTBEAT, "X", "S", "T", map[]) && all == Leading(m, [])
    ensures |all| == 7 && Field(all[0].0, all[0].1) == "8=FIX.4.2" + SOH && Field(all[1].0, all[1].1) == "9=25" + SOH
    ensures Field(all[2].0, all[2].1) == "35=0" + SOH && Field(all[3].0, all[3].1) == "34=1" + SOH
    ensures Field(all[4].0, all[4].1) == "49=X" + SOH && Field(all[5].0, all[5].1) == "52=T" + SOH
    ensures Field(all[6].0, all[6].1) == "56=S" + SOH
  {
    HeartbeatLength(m);
    TagTexts();
    TwoDigits(2, 5);
    PrintedVersions(3);
    PrintedTypes();
  }

  lemma HeartbeatFields(m: Msg)
    requires m == Msg(3, 1, HEARTBEAT, "X", "S", "T", map[])
    ensures Fields(Leading(m, [])) == HeartbeatLead()
  {
    var all := Leading(m, []);
    HeartbeatParts(m, all);
    FieldsSeven(all);
    assert all[..7] == all;
  }

  lemma EndsIn(lead: string, n: nat, checksum: string)
    requires SevenBit(lead) && n < 1000 && ByteSum(lead) % 256 == n && InThree(n) == checksum
    ensures CheckSum(lead) == checksum
  {
    CheckSumValue(lead);
  }

  lemma PrintedBehind(m: Msg, order: seq<int>, lead: string, n: nat, checksum: string)
    requires Tabled(m) && (forall k | 0 <= k < |order| :: order[k] in m.body) && Fields(Leading(m, order)) == lead
    requires SevenBit(lead) && n < 1000 && ByteSum(lead) % 256 == n && InThree(n) == checksum
    ensures Print(m, order) == lead + Field(TAG_BODY_CHECKSUM, checksum)
  {
    EndsIn(lead, n, checksum);
  }

  lemma Trailer161()
    ensures InThree(161) == "161" && Field(TAG_BODY_CHECKSUM, "161") == "10=161" + SOH
  {
    TagTexts();
  }

  lemma HeartbeatPrinted(m: Msg, lead: string, trailer: string)
    requires Tabled(m) && Fields(Leading(m, [])) == lead && SevenBit(lead) && ByteSum(lead) == 1953
    requires InThree(161) == "161" && Field(TAG_BODY_CHECKSUM, "161") == trailer
    ensures Print(m, []) == lead + trailer
  {
    PrintedBehind(m, [], lead, 161, "161");
  }

  /** It is printed with tag 9 counting 25 bytes and with checksum 161. */
  lemma HeartbeatText()
    ensures Print(Msg(3, 1, HEARTBEAT, "X", "S", "T", map[]), []) == HeartbeatLead() + ("10=161" + SOH)
  {
    HeartbeatFields(Msg(3, 1, HEARTBEAT, "X", "S", "T", map[]));
    HeartbeatSum();
    Trailer161();
    HeartbeatPrinted(Msg(3, 1, HEARTBEAT, "X", "S", "T", map[]), HeartbeatLead(), "10=161" + SOH);
  }
}
