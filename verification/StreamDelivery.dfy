/** Printed messages through the receive cache: when a sender's chunks lose nothing, told from lengths alone, and that
    they then deliver what was sent (`source/fix/fix_receive_cache.cpp`, `source/fix/fix_session.cpp`). */
module StreamDelivery {
  import opened Text
  import opened FixConstants
  import opened FixMessages
  import opened FixParsers
  import opened RoundTrip
  import opened ReceiveCaches

  // ----- Lengths -----

  /** How far the first i pieces reach. */
  function Upto(pieces: seq<string>, i: nat): nat
    requires i <= |pieces|
  {
    |Flat(pieces[..i])|
  }

  /** No chunk that completes a message ends exactly one byte into the next; `kept` bytes came before the chunks. */
  ghost predicate Clear(texts: seq<string>, kept: nat, chunks: seq<string>) {
    forall i, j | 0 <= i < |chunks| && 0 < j <= |texts| && kept + Upto(chunks, i) < Upto(texts, j) ::
      kept + Upto(chunks, i + 1) != Upto(texts, j) + 1
  }

  lemma {:induction false} FlatConcat(a: seq<string>, b: seq<string>)
    ensures Flat(a + b) == Flat(a) + Flat(b)
    decreases |a|
  {
    if a == [] {
      assert a + b == b;
    } else {
      assert (a + b)[1..] == a[1..] + b;
      FlatConcat(a[1..], b);
      Associative(a[0], Flat(a[1..]), Flat(b));
    }
  }

  lemma UptoSplit(pieces: seq<string>, k: nat, j: nat)
    requires k + j <= |pieces|
    ensures Upto(pieces, k + j) == Upto(pieces, k) + Upto(pieces[k..], j)
  {
    assert pieces[..k + j] == pieces[..k] + pieces[k..][..j];
    FlatConcat(pieces[..k], pieces[k..][..j]);
  }

  lemma UptoOne(pieces: seq<string>)
    requires pieces != []
    ensures Upto(pieces, 1) == |pieces[0]|
  {
    assert pieces[..1] == [pieces[0]] && Flat([pieces[0]]) == pieces[0] + Flat([]);
  }

  // ----- Whole messages -----

  /** A text that is scanned as one message. */
  ghost predicate Unit(w: string) {
    && |w| >= 2 && w[0] == '8'
    && |ScanAll(w).messages| == 1 && ScanAll(w) == START.(messages := ScanAll(w).messages)
  }

  ghost predicate Units(texts: seq<string>) {
    texts == [] || (Unit(texts[0]) && Units(texts[1..]))
  }

  /** How many whole messages lie within the first p bytes. */
  function Complete(texts: seq<string>, p: nat): (k: nat)
    ensures k <= |texts|
  {
    if texts == [] || p < |texts[0]| then 0 else 1 + Complete(texts[1..], p - |texts[0]|)
  }

  lemma {:induction false} CompleteIs(texts: seq<string>, p: nat)
    ensures var k := Complete(texts, p);
            Upto(texts, k) <= p && (k < |texts| ==> p < Upto(texts, k + 1))
    decreases |texts|
  {
    if texts != [] {
      UptoOne(texts);
      if p >= |texts[0]| {
        var k := Complete(texts[1..], p - |texts[0]|);
        CompleteIs(texts[1..], p - |texts[0]|);
        UptoSplit(texts, 1, k);
        if 1 + k < |texts| { UptoSplit(texts, 1, k + 1); }
      }
    }
  }

  /** Part of a message is none. */
  lemma PartScan(w: string, q: string)
    requires Unit(w) && q <= w && |q| < |w|
    ensures ScanAll(q) == ScanAll(q).(messages := [], since := q, failed := false)
  {
    var r := w[|q|..];
    assert q + r == w;
    if ScanAll(q).failed { FailsOn(q, r); }
    Resume(q, r);
    var g := ScanAll(q);
    if g.messages != [] {
      assert |g.messages + ScanAll(g.since + r).messages| == 1;
      NothingNew(START, g.since + r, NOTHING);
    }
    NothingNew(START, q, NOTHING);
    assert "" + q == q && "" + (g.since + r) == g.since + r;
  }

  /** What a scan of the beginning of a stream of messages finds, and what it leaves. */
  ghost predicate Scanned(texts: seq<string>, t: string) {
    var k, g := Complete(texts, |t|), ScanAll(t);
    && Upto(texts, k) <= |t| && !g.failed && (g.messages == [] <==> k == 0) && g.since == t[Upto(texts, k)..]
  }

  lemma {:induction false} StreamScan(texts: seq<string>, t: string)
    requires Units(texts) && t <= Flat(texts)
    ensures Scanned(texts, t)
    decreases |texts|
  {
    if texts == [] {
    } else if |t| < |texts[0]| {
      PartScan(texts[0], t);
      assert texts[..0] == [];
    } else {
      var w, u := texts[0], t[|texts[0]|..];
      assert t == w + u;
      StreamScan(texts[1..], u);
      Resume(w, u);
      assert "" + u == u;
      UptoOne(texts);
      UptoSplit(texts, 1, Complete(texts[1..], |u|));
    }
  }

  /** Behind whole messages the stream begins with the next one. */
  lemma {:induction false} UnitsFrom(texts: seq<string>, k: nat)
    requires Units(texts) && k <= |texts|
    ensures Units(texts[k..])
    ensures Flat(texts) == Flat(texts[..k]) + Flat(texts[k..])
    ensures Flat(texts[k..]) != "" ==> Flat(texts[k..])[0] == '8'
    decreases k
  {
    assert texts == texts[..k] + texts[k..];
    FlatConcat(texts[..k], texts[k..]);
    if k > 0 {
      UnitsFrom(texts[1..], k - 1);
      assert texts[1..][k - 1..] == texts[k..];
    } else {
      assert texts[0..] == texts;
    }
  }

  lemma NextByte(a: string, b: string, t: string)
    requires t <= a + b && |t| == |a| + 1
    ensures b != "" && t[|a|..] == [b[0]]
  {
  }

  /** A single byte left over is the first of a message. */
  lemma StartsEight(texts: seq<string>, k: nat, t: string)
    requires Units(texts) && t <= Flat(texts) && k <= |texts| && Upto(texts, k) <= |t|
    ensures |t| == Upto(texts, k) + 1 ==> t[Upto(texts, k)..] == "8"
  {
    UnitsFrom(texts, k);
    if |t| == Upto(texts, k) + 1 { NextByte(Flat(texts[..k]), Flat(texts[k..]), t); }
  }

  /** The parse drops the first byte of a message exactly when it ends one byte behind a message it completed. */
  lemma DropsAt(texts: seq<string>, t: string)
    requires Units(texts) && t <= Flat(texts)
    ensures var k := Complete(texts, |t|);
            && DropsStart(t) <==> k > 0 && |t| == Upto(texts, k) + 1
  {
    var k := Complete(texts, |t|);
    StreamScan(texts, t);
    StartsEight(texts, k, t);
  }

  // ----- From one chunk to the next -----

  lemma UptoFirst(chunks: seq<string>, i: nat)
    requires i < |chunks|
    ensures Upto(chunks, i + 1) == |chunks[0]| + Upto(chunks[1..], i)
  {
    UptoOne(chunks);
    UptoSplit(chunks, 1, i);
  }

  lemma UptoMonotone(texts: seq<string>, i: nat, j: nat)
    requires i <= j <= |texts|
    ensures Upto(texts, i) <= Upto(texts, j)
  {
    UptoSplit(texts, i, j - i);
  }

  lemma {:induction false} UptoGrows(texts: seq<string>, i: nat, j: nat)
    requires Units(texts) && i < j <= |texts|
    ensures Upto(texts, i) + 2 <= Upto(texts, j)
  {
    UnitsFrom(texts, i);
    UptoSplit(texts, i, j - i);
    UptoMonotone(texts[i..], 1, j - i);
    UptoOne(texts[i..]);
  }

  /** The first chunk is clear and the others are, from what it leaves on. */
  lemma ClearFirst(texts: seq<string>, kept: nat, chunks: seq<string>, p: nat, k: nat)
    requires Units(texts) && chunks != [] && k <= |texts| && (texts != [] ==> kept < |texts[0]|)
    requires p == kept + |chunks[0]| && Upto(texts, k) <= p && (k < |texts| ==> p < Upto(texts, k + 1))
    ensures Clear(texts, kept, chunks) <==>
              (k == 0 || p != Upto(texts, k) + 1) && Clear(texts[k..], p - Upto(texts, k), chunks[1..])
  {
    if Clear(texts, kept, chunks) {
      ClearNow(texts, kept, chunks, p, k);
      ClearLater(texts, kept, chunks, p, k);
    } else {
      ClearBoth(texts, kept, chunks, p, k);
    }
  }

  lemma ClearNow(texts: seq<string>, kept: nat, chunks: seq<string>, p: nat, k: nat)
    requires Units(texts) && chunks != [] && k <= |texts| && (texts != [] ==> kept < |texts[0]|)
    requires p == kept + |chunks[0]| && Clear(texts, kept, chunks)
    ensures k == 0 || p != Upto(texts, k) + 1
  {
    if k > 0 {
      UptoOne(texts);
      UptoMonotone(texts, 1, k);
      UptoOne(chunks);
      assert chunks[..0] == [];
      assert kept + Upto(chunks, 0) < Upto(texts, k);
      assert kept + Upto(chunks, 0 + 1) != Upto(texts, k) + 1;
    }
  }

  lemma ClearLater(texts: seq<string>, kept: nat, chunks: seq<string>, p: nat, k: nat)
    requires chunks != [] && k <= |texts| && p == kept + |chunks[0]| && Upto(texts, k) <= p && Clear(texts, kept, chunks)
    ensures Clear(texts[k..], p - Upto(texts, k), chunks[1..])
  {
    var later, rest, left := texts[k..], chunks[1..], p - Upto(texts, k);
    forall i, j | 0 <= i < |rest| && 0 < j <= |later| && left + Upto(rest, i) < Upto(later, j)
      ensures left + Upto(rest, i + 1) != Upto(later, j) + 1
    {
      UptoFirst(chunks, i);
      UptoFirst(chunks, i + 1);
      UptoSplit(texts, k, j);
      assert kept + Upto(chunks, i + 1) < Upto(texts, k + j);
    }
  }

  lemma ClearBoth(texts: seq<string>, kept: nat, chunks: seq<string>, p: nat, k: nat)
    requires Units(texts) && chunks != [] && k <= |texts| && (texts != [] ==> kept < |texts[0]|)
    requires p == kept + |chunks[0]| && Upto(texts, k) <= p && (k < |texts| ==> p < Upto(texts, k + 1))
    requires !Clear(texts, kept, chunks)
    ensures (k > 0 && p == Upto(texts, k) + 1) || !Clear(texts[k..], p - Upto(texts, k), chunks[1..])
  {
    var i, j :| 0 <= i < |chunks| && 0 < j <= |texts| && kept + Upto(chunks, i) < Upto(texts, j)
                && kept + Upto(chunks, i + 1) == Upto(texts, j) + 1;
    UptoOne(chunks);
    if i == 0 {
      if j < k { UptoGrows(texts, j, k); }
      if j > k { UptoMonotone(texts, k + 1, j); }
    } else {
      UnclearLater(texts, kept, chunks, p, k, i, j);
    }
  }

  lemma UnclearLater(texts: seq<string>, kept: nat, chunks: seq<string>, p: nat, k: nat, i: nat, j: nat)
    requires chunks != [] && k <= |texts| && p == kept + |chunks[0]| && Upto(texts, k) <= p
    requires 0 < i < |chunks| && j <= |texts|
    requires kept + Upto(chunks, i) < Upto(texts, j) && kept + Upto(chunks, i + 1) == Upto(texts, j) + 1
    ensures !Clear(texts[k..], p - Upto(texts, k), chunks[1..])
  {
    var later, rest, left := texts[k..], chunks[1..], p - Upto(texts, k);
    UptoFirst(chunks, i - 1);
    UptoFirst(chunks, i);
    if j <= k { UptoMonotone(texts, j, k); }
    UptoSplit(texts, k, j - k);
    assert left + Upto(rest, i - 1) < Upto(later, j - k) && left + Upto(rest, i) == Upto(later, j - k) + 1;
  }

  // ----- Delivery -----

  /** What the cache may hold of a stream: part of its first message. */
  predicate Begun(texts: seq<string>, kept: string) {
    if texts == [] then kept == "" else |kept| < |texts[0]|
  }

  lemma BegunRest(texts: seq<string>, p: nat, kept: string)
    requires p <= |Flat(texts)| && Upto(texts, Complete(texts, p)) + |kept| == p
    ensures Begun(texts[Complete(texts, p)..], kept)
  {
    var k := Complete(texts, p);
    CompleteIs(texts, p);
    if k < |texts| {
      UptoSplit(texts, k, 1);
      UptoOne(texts[k..]);
    } else {
      assert texts[..k] == texts;
    }
  }

  /** What a parse that drops nothing keeps. */
  lemma KeptIs(texts: seq<string>, t: string)
    requires Units(texts) && t <= Flat(texts) && !DropsStart(t)
    ensures var n := Upto(texts, Complete(texts, |t|)); n <= |t| && Kept(t) == t[n..]
  {
    StreamScan(texts, t);
    StartsEight(texts, Complete(texts, |t|), t);
    assert texts[..0] == [] && t[0..] == t;
  }

  lemma KeptPart(texts: seq<string>, t: string)
    requires Units(texts) && t <= Flat(texts) && !DropsStart(t)
    ensures var k := Complete(texts, |t|);
            Upto(texts, k) <= |t| && Kept(t) == t[Upto(texts, k)..] && Begun(texts[k..], Kept(t))
  {
    KeptIs(texts, t);
    BegunRest(texts, |t|, Kept(t));
  }

  lemma KeptGoesOn(texts: seq<string>, t: string, u: string, k: nat)
    requires k <= |texts| && Upto(texts, k) <= |t| && t + u <= Flat(texts) && Units(texts)
    ensures t[Upto(texts, k)..] + u <= Flat(texts[k..])
  {
    UnitsFrom(texts, k);
    PrefixRest(Flat(texts[..k]), Flat(texts[k..]), t, u);
  }

  lemma PrefixRest(a: string, b: string, t: string, u: string)
    requires t + u <= a + b && |a| <= |t|
    ensures t[|a|..] + u <= b
  {
    assert (t + u)[|a|..] == t[|a|..] + u && (a + b)[|a|..] == b;
  }

  /** The exact condition in a sender's terms: over a stream of messages no parse drops a byte that matters if and only
      if no chunk that completes a message ends exactly one byte into the next. */
  lemma {:induction false} SafeExactly(texts: seq<string>, kept: string, chunks: seq<string>)
    requires Units(texts) && Begun(texts, kept) && kept + Flat(chunks) <= Flat(texts)
    ensures Safe(kept, chunks) <==> Clear(texts, |kept|, chunks)
    decreases |chunks|
  {
    if chunks != [] {
      var t, u := kept + chunks[0], Flat(chunks[1..]);
      var k := Complete(texts, |t|);
      Associative(kept, chunks[0], u);
      assert t <= t + u;
      DropsAt(texts, t);
      CompleteIs(texts, |t|);
      ClearFirst(texts, |kept|, chunks, |t|, k);
      if !DropsStart(t) {
        Onwards(texts, t, u);
        SafeExactly(texts[k..], Kept(t), chunks[1..]);
      }
    }
  }

  /** After a parse that drops nothing the cache stands at the beginning of what remains of the stream. */
  lemma Onwards(texts: seq<string>, t: string, u: string)
    requires Units(texts) && t <= t + u <= Flat(texts) && !DropsStart(t)
    ensures var k := Complete(texts, |t|);
            && Upto(texts, k) <= |t| && |Kept(t)| == |t| - Upto(texts, k)
            && Units(texts[k..]) && Begun(texts[k..], Kept(t)) && Kept(t) + u <= Flat(texts[k..])
  {
    KeptPart(texts, t);
    KeptGoesOn(texts, t, u, Complete(texts, |t|));
    UnitsFrom(texts, Complete(texts, |t|));
  }

  /** A whole stream leaves nothing in the cache. */
  lemma {:induction false} LeavesNothing(texts: seq<string>, kept: string, chunks: seq<string>)
    requires Units(texts) && Begun(texts, kept) && kept + Flat(chunks) == Flat(texts) && Safe(kept, chunks)
    ensures Left(kept, chunks) == ""
    decreases |chunks|
  {
    if chunks == [] {
      assert kept + "" == kept;
    } else {
      var t, u := kept + chunks[0], Flat(chunks[1..]);
      var k := Complete(texts, |t|);
      Associative(kept, chunks[0], u);
      assert t <= t + u;
      KeptPart(texts, t);
      UnitsFrom(texts, k);
      KeptMeets(Flat(texts[..k]), Flat(texts[k..]), t, u);
      LeavesNothing(texts[k..], Kept(t), chunks[1..]);
    }
  }

  lemma KeptMeets(a: string, b: string, t: string, u: string)
    requires t + u == a + b && |a| <= |t|
    ensures t[|a|..] + u == b
  {
    assert (t + u)[|a|..] == t[|a|..] + u && (a + b)[|a|..] == b;
  }

  ghost function Prints(jobs: seq<Sent>): (texts: seq<string>)
    ensures |texts| == |jobs|
  {
    if jobs == [] then [] else [PrintJob(jobs[0])] + Prints(jobs[1..])
  }

  lemma PrintUnit(j: Sent)
    ensures Unit(PrintJob(j))
  {
    PrintScan([j]);
    PrintBegins(j.msg, j.order);
    assert PrintAll([j]) == PrintJob(j) + PrintAll([]) == PrintJob(j);
  }

  lemma {:induction false} PrintUnits(jobs: seq<Sent>)
    ensures Units(Prints(jobs)) && Flat(Prints(jobs)) == PrintAll(jobs)
  {
    if jobs != [] {
      PrintUnit(jobs[0]);
      PrintUnits(jobs[1..]);
    }
  }

  /** Prints sent in clear chunks are delivered as sent, and leave nothing in the cache. */
  lemma PrintsDelivered(jobs: seq<Sent>, chunks: seq<string>)
    requires Flat(chunks) == PrintAll(jobs) && Clear(Prints(jobs), 0, chunks)
    ensures Safe("", chunks) && Delivered("", chunks) == ReceivedAll(jobs) && Left("", chunks) == ""
  {
    PrintUnits(jobs);
    assert "" + Flat(chunks) == Flat(chunks);
    FirstBegun(Prints(jobs));
    SafeExactly(Prints(jobs), "", chunks);
    PrintScan(jobs);
    ServeEnds("", chunks);
    LeavesNothing(Prints(jobs), "", chunks);
  }

  lemma FirstBegun(texts: seq<string>)
    requires Units(texts)
    ensures Begun(texts, "")
  {
  }
}
