/** The parsers (`source/fix/fix_parser.h`): one message from one or two buffers, and as many messages as a
    buffer holds. Each loop is proved against a specification that reads one character at a time. */
module FixParsers {
  import opened Wrappers
  import opened Text
  import opened FixConstants
  import opened FixMessages

  // ----- Reading fields -----

  /** `tag` and `value` so far, which of the two the target pointer names, and the message being filled. */
  datatype Reader = Reader(tag: string, value: string, inValue: bool, msg: Msg)

  function Clean(m: Msg): Reader {
    Reader("", "", false, m)
  }

  function Push(r: Reader, c: char): Reader {
    if r.inValue then r.(value := r.value + [c]) else r.(tag := r.tag + [c])
  }

  /** None when stoi throws on the tag. */
  function ReadChar(r: Reader, c: char): Option<Reader> {
    if c == FIX_EQUALS then Some(r.(inValue := true))
    else if c == FIX_DELIMITER then
      match StoI(r.tag) case None => None case Some(tag) => Some(Clean(WithTag(r.msg, tag, r.value)))
    else Some(Push(r, c))
  }

  function Read(r: Reader, text: string): Option<Reader>
    decreases |text|
  {
    if text == "" then Some(r)
    else match ReadChar(r, text[0]) case None => None case Some(n) => Read(n, text[1..])
  }

  /** A message with the tags of a text. */
  function Filled(m: Msg, text: string): Option<Msg> {
    match Read(Clean(m), text) case None => None case Some(r) => Some(r.msg)
  }

  /** A message filled from a text, and its header taken out. */
  function ParseOne(m: Msg, text: string): Option<Msg> {
    match Filled(m, text) case None => None case Some(n) => Header(n)
  }

  /** The chain of tests on one character; false when stoi throws. */
  method Consume(iter: char, message: FixMessage, tag0: string, value0: string, inValue0: bool)
    returns (ok: bool, tag: string, value: string, inValue: bool)
    modifies message
    ensures ReadChar(Reader(tag0, value0, inValue0, old(message.View())), iter) ==
            if ok then Some(Reader(tag, value, inValue, message.View())) else None
  {
    ok, tag, value, inValue := true, tag0, value0, inValue0;
    if iter == FIX_EQUALS {
      inValue := true;
    } else if iter == FIX_DELIMITER {
      inValue := false;
      var number := StoI(tag);
      if number == None {
        return false, tag, value, inValue;
      }
      message.SetTag(number.value, value);
      tag, value := "", "";
    } else if inValue {
      value := value + [iter];
    } else {
      tag := tag + [iter];
    }
  }

  method ParseFromBuffer(message: FixMessage, input: array<char>, length: nat) returns (ok: bool)
    requires length <= input.Length
    modifies message
    ensures ok == ParseOne(old(message.View()), input[..length]).Some?
    ensures ok ==> message.View() == ParseOne(old(message.View()), input[..length]).value
  {
    var tag, value, inValue := "", "", false;
    ghost var goal := Read(Clean(message.View()), input[..length]);
    for i := 0 to length
      invariant Read(Reader(tag, value, inValue, message.View()), input[i..length]) == goal
    {
      var iter := input[i];
      assert input[i..length][0] == iter && input[i..length][1..] == input[i + 1..length];
      ok, tag, value, inValue := Consume(iter, message, tag, value, inValue);
      if !ok {
        return;
      }
    }
    ok := message.InitialiseHeader();
  }

  /** What the two-buffer loop reads: nothing at all when the first buffer is empty. */
  function Joined(first: string, second: string): string {
    if first == "" then "" else first + second
  }

  /** Tags are only ever added. */
  lemma {:induction false} ReadGrows(r: Reader, text: string)
    ensures Read(r, text).Some? ==> r.msg.body.Keys <= Read(r, text).value.msg.body.Keys
    decreases |text|
  {
    if text != "" && ReadChar(r, text[0]).Some? {
      ReadGrows(ReadChar(r, text[0]).value, text[1..]);
    }
  }

  /** The first delimiter adds a tag, or throws. */
  lemma {:induction false} ReadFills(r: Reader, text: string)
    requires r.msg.body == map[]
    ensures FIX_DELIMITER in text ==> Read(r, text).None? || Read(r, text).value.msg.body != map[]
    ensures FIX_DELIMITER !in text ==> Read(r, text).Some? && Read(r, text).value.msg == r.msg
    decreases |text|
  {
    if text == "" {
    } else if text[0] == FIX_DELIMITER {
      var n := ReadChar(r, text[0]);
      if n.Some? {
        ReadGrows(n.value, text[1..]);
        assert StoI(r.tag).value in n.value.msg.body.Keys;
      }
    } else {
      assert FIX_DELIMITER in text <==> FIX_DELIMITER in text[1..];
      ReadFills(ReadChar(r, text[0]).value, text[1..]);
    }
  }

  /** Two buffers fill a message without tags as their concatenation does if and only if the first is not empty or
      the second holds no whole field. */
  lemma JoinedExactly(m: Msg, first: string, second: string)
    requires m.body == map[]
    ensures Filled(m, Joined(first, second)) == Filled(m, first + second) <==> first != "" || FIX_DELIMITER !in second
  {
    ReadFills(Clean(m), second);
    if first == "" {
      assert first + second == second;
    }
  }

  method ParseFromMultipleBuffers(message: FixMessage, buffer1: array<char>, length1: nat,
                                  buffer2: array<char>, length2: nat) returns (ok: bool)
    requires length1 <= buffer1.Length && length2 <= buffer2.Length
    modifies message
    ensures ok == ParseOne(old(message.View()), Joined(buffer1[..length1], buffer2[..length2])).Some?
    ensures ok ==> message.View() == ParseOne(old(message.View()), Joined(buffer1[..length1], buffer2[..length2])).value
  {
    var tag, value, inValue := "", "", false;
    var buffer, iterations := buffer1, length1;
    var switchedToSecondBuffer := false;
    var i := 0;
    ghost var first, second := buffer1[..length1], buffer2[..length2];
    ghost var rest := Joined(first, second);
    ghost var goal := Read(Clean(message.View()), rest);
    while i < iterations
      invariant 0 <= i <= iterations <= buffer.Length
      invariant buffer[..iterations] == if switchedToSecondBuffer then second else first
      invariant switchedToSecondBuffer ==> rest == second[i..]
      invariant !switchedToSecondBuffer ==> rest == Joined(first[i..], second) && (i < length1 || length1 == 0)
      invariant Read(Reader(tag, value, inValue, message.View()), rest) == goal
      decreases !switchedToSecondBuffer, iterations - i
    {
      var iter := buffer[i];
      assert rest[0] == iter;
      rest := rest[1..];
      ok, tag, value, inValue := Consume(iter, message, tag, value, inValue);
      if !ok {
        return;
      }
      if i == iterations - 1 {
        if switchedToSecondBuffer {
          break;
        }
        i := -1;
        iterations, buffer, switchedToSecondBuffer := length2, buffer2, true;
      }
      i := i + 1;
    }
    assert rest == "";
    ok := message.InitialiseHeader();
  }

  /** The fields of a line of text, already split at the delimiters. None stands for a throwing stoi and for a
      field without a value, which the code must not be given. */
  function ReadPairs(m: Msg, pairs: seq<string>): Option<Msg>
    decreases |pairs|
  {
    if pairs == [] then Some(m)
    else if pairs[0] == "" then ReadPairs(m, pairs[1..])
    else
      var tokens := Split(pairs[0], FIX_EQUALS);
      if |tokens| < 2 || StoI(tokens[0]) == None then None
      else ReadPairs(WithTag(m, StoI(tokens[0]).value, tokens[1]), pairs[1..])
  }

  function ParseText(m: Msg, input: string): Option<Msg> {
    match ReadPairs(m, Split(input, FIX_DELIMITER)) case None => None case Some(n) => Header(n)
  }

  method ParseFromString(message: FixMessage, input: string) returns (ok: bool)
    modifies message
    ensures ok == ParseText(old(message.View()), input).Some?
    ensures ok ==> message.View() == ParseText(old(message.View()), input).value
  {
    var tagValuePairs := Split(input, FIX_DELIMITER);
    ghost var goal := ReadPairs(message.View(), tagValuePairs);
    for i := 0 to |tagValuePairs|
      invariant ReadPairs(message.View(), tagValuePairs[i..]) == goal
    {
      if tagValuePairs[i] != "" {
        var tokens := Split(tagValuePairs[i], FIX_EQUALS);
        if |tokens| < 2 {
          return false;
        }
        var tag := StoI(tokens[0]);
        if tag == None {
          return false;
        }
        message.SetTag(tag.value, tokens[1]);
      }
    }
    ok := message.InitialiseHeader();
  }

  // ----- Scanning a stream -----

  /** The state of the multi-message loop, the messages found, and the characters since the last of them.
      After an exception it is `failed` and stays as it was. */
  datatype Scan = Scan(reader: Reader, last: bool, started: bool, messages: seq<Msg>, since: string, failed: bool)

  const START := Scan(Clean(EMPTY), false, false, [], "", false)

  /** A lookahead that is no '='. */
  const NOTHING := '\0'

  function Finish(s: Scan, m: Msg): Scan {
    match Header(m)
    case None => s.(failed := true)
    case Some(h) => START.(messages := s.messages + [h])
  }

  /** One character, seeing the next one. A message starts at an '8' before an '='. */
  function ScanChar(s: Scan, c: char, next: char): Scan {
    if s.failed then s
    else if !s.started && !(c == '8' && next == FIX_EQUALS) then s.(since := s.since + [c])
    else
      match ReadChar(s.reader, c)
      case None => s.(failed := true)
      case Some(r) =>
        if c == FIX_DELIMITER && s.last then Finish(s, r.msg)
        else s.(reader := r, last := s.last || (c == FIX_EQUALS && s.reader.tag == "10"), started := true,
                since := s.since + [c])
  }

  function Go(s: Scan, text: string, after: char): Scan
    decreases |text|
  {
    if text == "" then s
    else Go(ScanChar(s, text[0], if |text| > 1 then text[1] else after), text[1..], after)
  }

  function ScanAll(text: string): Scan {
    Go(START, text, NOTHING)
  }

  /** The lookahead past the end cannot change what was found. */
  lemma {:induction false} LookaheadIrrelevant(s: Scan, text: string, x: char, y: char)
    ensures var a, b := Go(s, text, x), Go(s, text, y);
            && a.messages == b.messages && a.since == b.since && a.failed == b.failed
            && (text != "" && text[|text| - 1] != '8' ==> a == b)
    decreases |text|
  {
    if |text| == 1 {
      assert Go(s, text, x) == ScanChar(s, text[0], x) && Go(s, text, y) == ScanChar(s, text[0], y);
    } else if |text| > 1 {
      LookaheadIrrelevant(ScanChar(s, text[0], text[1]), text[1..], x, y);
    }
  }

  lemma {:induction false} GoConcat(s: Scan, a: string, b: string, after: char)
    ensures Go(s, a + b, after) == Go(Go(s, a, if b == "" then after else b[0]), b, after)
    decreases |a|
  {
    if a == "" {
      assert a + b == b;
    } else {
      var next := if |a| > 1 then a[1] else if b == "" then after else b[0];
      assert (a + b)[1..] == a[1..] + b;
      GoConcat(ScanChar(s, a[0], next), a[1..], b, after);
    }
  }

  lemma {:induction false} GoFailed(s: Scan, text: string, after: char)
    requires s.failed
    ensures Go(s, text, after) == s
    decreases |text|
  {
    if text != "" {
      GoFailed(s, text[1..], after);
    }
  }

  /** What is kept is the end of what was read. */
  lemma {:induction false} SinceSuffix(s: Scan, text: string, after: char)
    ensures var g := Go(s, text, after);
            !g.failed ==> |g.since| <= |s.since| + |text|
                          && g.since == (s.since + text)[|s.since| + |text| - |g.since|..]
    decreases |text|
  {
    var g := Go(s, text, after);
    if text != "" && !g.failed {
      var n := ScanChar(s, text[0], if |text| > 1 then text[1] else after);
      SinceSuffix(n, text[1..], after);
      if n.failed { GoFailed(n, text[1..], after); }
      assert n.since == s.since + [text[0]] ==> n.since + text[1..] == s.since + text;
    }
  }

  /** The character behind the i-th one. */
  function Behind(text: string, i: nat, after: char): char {
    if i + 1 < |text| then text[i + 1] else after
  }

  /** One more character of a text is read. */
  lemma Unfold(s: Scan, text: string, i: nat, after: char)
    requires i < |text|
    ensures var n := ScanChar(s, text[i], Behind(text, i, after));
            && Go(s, text[i..], after) == Go(n, text[i + 1..], after)
            && (n.failed ==> Go(s, text[i..], after) == n)
  {
    assert text[i..][1..] == text[i + 1..];
    var n := ScanChar(s, text[i], Behind(text, i, after));
    if n.failed { GoFailed(n, text[i + 1..], after); }
  }

  /** A delimiter: the tag is set, and behind a checksum the message is complete. */
  method EndField(message: FixMessage, tag: string, value: string, lastTagOfMessage: bool, messages: seq<Msg>,
                  ghost s: Scan)
    returns (ok: bool, more: seq<Msg>)
    requires s == Scan(Reader(tag, value, s.reader.inValue, message.View()), lastTagOfMessage, true, messages,
                       s.since, false)
    modifies message
    ensures var n := ScanChar(s, FIX_DELIMITER, NOTHING);
            && n.messages == more
            && if ok then n == Scan(Clean(message.View()), false, !lastTagOfMessage, more, n.since, false)
                          && n.since == (if lastTagOfMessage then "" else s.since + [FIX_DELIMITER])
               else n.failed
  {
    more := messages;
    var number := StoI(tag);
    if number == None {
      return false, more;
    }
    message.SetTag(number.value, value);
    if lastTagOfMessage {
      var good := message.InitialiseHeader();
      if !good {
        return false, more;
      }
      more := messages + [message.View()];
      message.Reset();
    }
    ok := true;
  }

  /** Any other character of a started message. */
  method Collect(iter: char, tag0: string, value0: string, inValue0: bool, last0: bool, ghost m: Msg)
    returns (tag: string, value: string, inValue: bool, last: bool)
    requires iter != FIX_DELIMITER
    ensures ReadChar(Reader(tag0, value0, inValue0, m), iter) == Some(Reader(tag, value, inValue, m))
    ensures last == (last0 || (iter == FIX_EQUALS && tag0 == "10"))
  {
    tag, value, inValue, last := tag0, value0, inValue0, last0;
    if iter == FIX_EQUALS {
      if |tag| == 2 {
        if tag[0] == '1' && tag[1] == '0' {
          last := true;
        }
      }
      inValue := true;
    } else if inValue {
      value := value + [iter];
    } else {
      tag := tag + [iter];
    }
  }

  /** The rest of a turn of the loop, for one character; `completed` says that it ended a message. */
  method Turn(iter: char, message: FixMessage, tag0: string, value0: string, inValue0: bool, last0: bool, started0: bool,
              messages0: seq<Msg>, ghost s: Scan, ghost next: char)
    returns (ok: bool, completed: bool, tag: string, value: string, inValue: bool, last: bool, started: bool,
             messages: seq<Msg>)
    requires s == Scan(Reader(tag0, value0, inValue0, message.View()), last0, started0, messages0, s.since, false)
    requires iter == '8' && next == FIX_EQUALS ==> started0
    modifies message
    ensures var n := ScanChar(s, iter, next);
            && n.messages == messages && ok == !n.failed
            && (ok ==> n == Scan(Reader(tag, value, inValue, message.View()), last, started, messages, n.since, false)
                       && |n.since| == if completed then 0 else |s.since| + 1)
  {
    ok, completed := true, false;
    tag, value, inValue, last, started, messages := tag0, value0, inValue0, last0, started0, messages0;
    if started && iter == FIX_DELIMITER {
      inValue := false;
      ok, messages := EndField(message, tag, value, last, messages, s);
      if last {
        completed, last, started := true, false, false;
      }
      tag, value := "", "";
    } else if started {
      tag, value, inValue, last := Collect(iter, tag, value, inValue, last, message.View());
    }
  }

  /** The first half of a turn: the two characters that open a message are taken together. The second may be the
      byte behind the end, which then only lengthens what follows the last message. */
  method Open(buffer: array<char>, bufferSize: nat, i0: nat, tag0: string, value0: string, inValue0: bool, last0: bool,
              started0: bool, ghost s: Scan, ghost after: char)
    returns (i: nat, iter: char, tag: string, value: string, inValue: bool, last: bool, started: bool,
             ghost next: char, ghost n: Scan)
    requires i0 < bufferSize <= buffer.Length && (bufferSize < buffer.Length ==> after == buffer[bufferSize])
    requires bufferSize == buffer.Length ==> after == NOTHING
    requires s == Scan(Reader(tag0, value0, inValue0, s.reader.msg), last0, started0, s.messages, s.since, false)
    ensures i0 <= i <= bufferSize && i < buffer.Length && iter == buffer[i]
    ensures n == Scan(Reader(tag, value, inValue, s.reader.msg), last, started, s.messages, n.since, false)
    ensures |n.since| - |s.since| == i - i0 && (iter == '8' && next == FIX_EQUALS ==> started)
    ensures var all, goal, m := buffer[..bufferSize], Go(s, buffer[..bufferSize][i0..], after), ScanChar(n, iter, next);
            if i == bufferSize then n == goal && !m.failed && m.messages == goal.messages && m.since != ""
            else goal == Go(m, all[i + 1..], after) && (m.failed ==> goal == m)
  {
    ghost var all := buffer[..bufferSize];
    i, iter := i0, buffer[i0];
    tag, value, inValue, last, started := tag0, value0, inValue0, last0, started0;
    n := s;
    Unfold(s, all, i, after);
    if iter == '8' && i + 1 < buffer.Length && buffer[i + 1] == FIX_EQUALS {
      tag, value, inValue, last := Collect(iter, tag, value, inValue, last, s.reader.msg);
      started := true;
      n := ScanChar(s, iter, FIX_EQUALS);
      i := i + 1;
      iter := buffer[i];
      if i < bufferSize { Unfold(n, all, i, after); }
    }
    next := if i < bufferSize then Behind(all, i, after) else NOTHING;
  }

  method ParseMultipleMessages(buffer: array<char>, bufferSize: nat)
    returns (ok: bool, messages: seq<Msg>, remainingBytesStartIndex: nat)
    requires bufferSize <= buffer.Length
    ensures var g := ScanAll(buffer[..bufferSize]);
            && ok == !g.failed && messages == g.messages
            && (ok ==> remainingBytesStartIndex + |g.since| == bufferSize)
  {
    var tag, value, inValue := "", "", false;
    var message := new FixMessage();
    var lastTagOfMessage, fixMessageStarted := false, false;
    messages, remainingBytesStartIndex := [], 0;
    ghost var all := buffer[..bufferSize];
    ghost var after := if bufferSize < buffer.Length then buffer[bufferSize] else NOTHING;
    ghost var goal := Go(START, all, after);
    LookaheadIrrelevant(START, all, after, NOTHING);
    assert goal.messages == ScanAll(all).messages && goal.since == ScanAll(all).since && goal.failed == ScanAll(all).failed;
    ghost var scan := START;
    assert all[0..] == all;
    var i := 0;
    while i < bufferSize
      invariant fresh(message) && i <= bufferSize + 1
      invariant i <= bufferSize ==>
        && scan == Scan(Reader(tag, value, inValue, message.View()), lastTagOfMessage, fixMessageStarted,
                        messages, scan.since, false)
        && Go(scan, all[i..], after) == goal
        && remainingBytesStartIndex + |scan.since| == i
      invariant i > bufferSize ==>
        && messages == goal.messages && !goal.failed
        && remainingBytesStartIndex + |goal.since| == bufferSize
    {
      var iter, completed;
      ghost var next;
      i, iter, tag, value, inValue, lastTagOfMessage, fixMessageStarted, next, scan :=
        Open(buffer, bufferSize, i, tag, value, inValue, lastTagOfMessage, fixMessageStarted, scan, after);
      ok, completed, tag, value, inValue, lastTagOfMessage, fixMessageStarted, messages :=
        Turn(iter, message, tag, value, inValue, lastTagOfMessage, fixMessageStarted, messages, scan, next);
      scan := ScanChar(scan, iter, next);
      if !ok {
        return;
      }
      if completed {
        remainingBytesStartIndex := i + 1;
      }
      i := i + 1;
    }
    ok := true;
  }
}
