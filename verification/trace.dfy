/** What one run of the script does, as a sequence of events, and the
    guarantees that sequence carries. The network is abstracted into
    oracles: `net[i]` says whether looking up the i-th matching row's phone
    succeeds and whether each of the two messages to that row is
    delivered. */
module Trace {
  import opened Contacts

  datatype Event =
    | Resolve(phone: string)                      // contact lookup attempted
    | Skip(phone: string)                         // lookup failed, row skipped
    | Send(phone: string, text: string, ok: bool) // one message attempted
    | Disconnect                                  // the session is released

  /** The kind of an event, without its data, so that `Count` can take
      the kind to count as an ordinary argument. */
  datatype Kind = ResolveKind | SkipKind | SendKind | DisconnectKind

  function KindOf(e: Event): Kind {
    match e
    case Resolve(_) => ResolveKind
    case Skip(_) => SkipKind
    case Send(_, _, _) => SendKind
    case Disconnect => DisconnectKind
  }

  /** The two message templates, in the order they are sent. Each opens
      with its own emoji, and the name can be read back from between the
      fixed opening and the closing `!`. */
  function BirthdayText(firstName: string): (text: string)
    ensures |text| == |firstName| + 19
    ensures text[0] == '🎂' && text[18..|text| - 1] == firstName && text[|text| - 1] == '!'
  {
    "🎂 Happy Birthday, " + firstName + "!"
  }

  function CongratsText(otherName: string): (text: string)
    ensures |text| == |otherName| + 20
    ensures text[0] == '🎉' && text[19..|text| - 1] == otherName && text[|text| - 1] == '!'
  {
    "🎉 Congratulations, " + otherName + "!"
  }

  function Greetings(row: Row): (texts: seq<string>)
    ensures |texts| == 2
  {
    [BirthdayText(row.firstName), CongratsText(row.otherName)]
  }

  /** What the network answers for one row: whether the lookup succeeds,
      and whether the first and the second message are delivered (the
      latter two matter only when the lookup succeeds). */
  datatype Outcome = Outcome(resolves: bool, firstSent: bool, secondSent: bool)

  /** The send outcomes, in the order of the texts. */
  function Delivered(o: Outcome): (oks: seq<bool>)
    ensures |oks| == 2
  {
    [o.firstSent, o.secondSent]
  }

  /** One send attempt per text, in order, each with its own outcome. */
  function Sends(phone: string, texts: seq<string>, oks: seq<bool>): seq<Event>
    requires |oks| == |texts|
  {
    if texts == [] then []
    else
      var n := |texts| - 1;
      Sends(phone, texts[..n], oks[..n]) + [Send(phone, texts[n], oks[n])]
  }

  /** The events of one row: a lookup, then either a skip or the two
      sends, the birthday greeting first, each with its own outcome. The
      two sends are written out rather than taken from `Sends`, so that
      proofs about many rows never unfold that recursion; `GreetingsSends`
      shows they are the inner loop's `Sends`. */
  function RowEvents(row: Row, o: Outcome): (t: seq<Event>)
    ensures |t| == (if o.resolves then 3 else 2) && t[0] == Resolve(row.phone)
    ensures t[1].Skip? <==> !o.resolves
  {
    if o.resolves then
      [Resolve(row.phone),
       Send(row.phone, BirthdayText(row.firstName), o.firstSent),
       Send(row.phone, CongratsText(row.otherName), o.secondSent)]
    else [Resolve(row.phone), Skip(row.phone)]
  }

  /** `f` applied to the pairs of `xs` and `ys`, results concatenated in
      order. */
  function ConcatPairs<X, Y>(f: (X, Y) -> seq<Event>, xs: seq<X>, ys: seq<Y>): seq<Event>
    requires |ys| == |xs|
  {
    if xs == [] then []
    else
      var n := |xs| - 1;
      ConcatPairs(f, xs[..n], ys[..n]) + f(xs[n], ys[n])
  }

  /** The events of the rows, row after row, in the given order. */
  function RowsEvents(rows: seq<Row>, net: seq<Outcome>): seq<Event>
    requires |net| == |rows|
  {
    ConcatPairs(RowEvents, rows, net)
  }

  /** A whole run over the filtered rows: with no rows it disconnects at
      once; otherwise it handles every row and then disconnects. */
  function RunTrace(rows: seq<Row>, net: seq<Outcome>): (t: seq<Event>)
    requires |net| == |rows|
    ensures |t| > 0 && t[|t| - 1] == Event.Disconnect
  {
    if rows == [] then [Event.Disconnect]
    else RowsEvents(rows, net) + [Event.Disconnect]
  }

  /** Number of events of one kind. */
  function Count(t: seq<Event>, k: Kind): nat {
    if t == [] then 0
    else Count(t[..|t| - 1], k) + (if KindOf(t[|t| - 1]) == k then 1 else 0)
  }

  /** Number of rows whose lookup succeeds. */
  function Resolved(net: seq<Outcome>): (n: nat)
    ensures n <= |net|
  {
    if net == [] then 0
    else Resolved(net[..|net| - 1]) + (if net[|net| - 1].resolves then 1 else 0)
  }

  /** The phones of the lookups, in the order they happen. */
  function LookedUp(t: seq<Event>): seq<string> {
    if t == [] then []
    else
      var e := t[|t| - 1];
      LookedUp(t[..|t| - 1]) + (if e.Resolve? then [e.phone] else [])
  }

  /** The phones of the rows, in row order. */
  function Phones(rows: seq<Row>): (ps: seq<string>)
    ensures |ps| == |rows|
    ensures forall i | 0 <= i < |rows| :: ps[i] == rows[i].phone
  {
    if rows == [] then []
    else Phones(rows[..|rows| - 1]) + [rows[|rows| - 1].phone]
  }

  /** The session is released exactly once, by the last event. */
  predicate DisconnectsOnceAtEnd(t: seq<Event>) {
    |t| > 0 && t[|t| - 1] == Event.Disconnect &&
    forall i | 0 <= i < |t| - 1 :: !t[i].Disconnect?
  }

  // ---------------------------------------------------------------------
  // Facts about the aggregating functions

  /** Dropping the last element of a concatenation with a non-empty
      second part drops it from the second part. */
  lemma DropLastOfAppend<T>(a: seq<T>, b: seq<T>)
    requires b != []
    ensures (a + b)[..|a + b| - 1] == a + b[..|b| - 1]
    ensures (a + b)[|a + b| - 1] == b[|b| - 1]
  {
  }

  lemma {:induction false} CountAppend(a: seq<Event>, b: seq<Event>, k: Kind)
    ensures Count(a + b, k) == Count(a, k) + Count(b, k)
  {
    if b == [] {
      assert a + b == a;
    } else {
      var n := |b| - 1;
      assert (a + b)[..|a + b| - 1] == a + b[..n];
      CountAppend(a, b[..n], k);
    }
  }

  lemma {:induction false} LookedUpAppend(a: seq<Event>, b: seq<Event>)
    ensures LookedUp(a + b) == LookedUp(a) + LookedUp(b)
  {
    if b == [] {
      assert a + b == a;
    } else {
      var n := |b| - 1;
      assert (a + b)[..|a + b| - 1] == a + b[..n];
      LookedUpAppend(a, b[..n]);
    }
  }

  // ---------------------------------------------------------------------
  // One row

  /** Sending the greetings one after the other yields exactly two send
      attempts, the birthday greeting first and the congratulation second,
      each carrying its own outcome. */
  lemma {:induction false} GreetingsSends(row: Row, o: Outcome)
    ensures Sends(row.phone, Greetings(row), Delivered(o)) ==
      [Send(row.phone, BirthdayText(row.firstName), o.firstSent),
       Send(row.phone, CongratsText(row.otherName), o.secondSent)]
  {
    var texts, oks := Greetings(row), Delivered(o);
    assert texts[..1][..0] == [] && oks[..1][..0] == [];
    assert Sends(row.phone, texts[..1], oks[..1]) == [Send(row.phone, texts[0], oks[0])];
  }

  lemma RowEventsCounts(row: Row, o: Outcome)
    ensures var t := RowEvents(row, o);
      Count(t, ResolveKind) == 1 && Count(t, SendKind) == (if o.resolves then 2 else 0) &&
      Count(t, SkipKind) == (if o.resolves then 0 else 1) && Count(t, DisconnectKind) == 0 &&
      LookedUp(t) == [row.phone]
  {
    var t := RowEvents(row, o);
    var head := [Resolve(row.phone)];
    assert t[..1] == head && head[..0] == [];
    assert Count(head, ResolveKind) == 1;
    assert Count(head, SkipKind) == 0;
    assert Count(head, SendKind) == 0;
    assert Count(head, DisconnectKind) == 0;
    assert LookedUp(head) == [row.phone];
    if o.resolves {
      assert t[..2][..1] == head;
    }
  }

  // ---------------------------------------------------------------------
  // Many rows

  lemma {:induction false} ConcatPairsAppend<X, Y>(f: (X, Y) -> seq<Event>,
                                                  a: seq<X>, ya: seq<Y>, b: seq<X>, yb: seq<Y>)
    requires |ya| == |a| && |yb| == |b|
    ensures ConcatPairs(f, a + b, ya + yb) == ConcatPairs(f, a, ya) + ConcatPairs(f, b, yb)
  {
    if b == [] {
      assert a + b == a && ya + yb == ya;
    } else {
      var n := |b| - 1;
      DropLastOfAppend(a, b);
      DropLastOfAppend(ya, yb);
      ConcatPairsAppend(f, a, ya, b[..n], yb[..n]);
    }
  }

  /** Handling a list of rows is handling its first part and then its
      second part: no row's events depend on another row's outcomes. */
  lemma RowsEventsAppend(a: seq<Row>, na: seq<Outcome>, b: seq<Row>, nb: seq<Outcome>)
    requires |na| == |a| && |nb| == |b|
    ensures RowsEvents(a + b, na + nb) == RowsEvents(a, na) + RowsEvents(b, nb)
  {
    ConcatPairsAppend(RowEvents, a, na, b, nb);
  }

  /** The last row's events come last. */
  lemma RowsEventsLast(rows: seq<Row>, net: seq<Outcome>)
    requires |net| == |rows| && rows != []
    ensures RowsEvents(rows, net) ==
      RowsEvents(rows[..|rows| - 1], net[..|rows| - 1]) + RowEvents(rows[|rows| - 1], net[|rows| - 1])
  {
  }

  /** One more row: the events of the first i + 1 rows extend those of
      the first i by row i's. */
  lemma RowsEventsStep(rows: seq<Row>, net: seq<Outcome>, i: nat)
    requires |net| == |rows| && i < |rows|
    ensures RowsEvents(rows[..i + 1], net[..i + 1]) ==
      RowsEvents(rows[..i], net[..i]) + RowEvents(rows[i], net[i])
  {
    assert rows[..i + 1][..i] == rows[..i] && net[..i + 1][..i] == net[..i];
    RowsEventsLast(rows[..i + 1], net[..i + 1]);
  }

  lemma {:induction false} RowsEventsCounts(rows: seq<Row>, net: seq<Outcome>)
    requires |net| == |rows|
    ensures var t := RowsEvents(rows, net);
      Count(t, ResolveKind) == |rows| &&
      Count(t, SendKind) == 2 * Resolved(net) &&
      Count(t, SkipKind) == |rows| - Resolved(net) &&
      Count(t, DisconnectKind) == 0 &&
      LookedUp(t) == Phones(rows)
  {
    if rows != [] {
      var n := |rows| - 1;
      RowsEventsLast(rows, net);
      var init := RowsEvents(rows[..n], net[..n]);
      var last := RowEvents(rows[n], net[n]);
      RowsEventsCounts(rows[..n], net[..n]);
      RowEventsCounts(rows[n], net[n]);
      CountAppend(init, last, ResolveKind);
      CountAppend(init, last, SendKind);
      CountAppend(init, last, SkipKind);
      CountAppend(init, last, DisconnectKind);
      LookedUpAppend(init, last);
    }
  }

  lemma {:induction false} RowsEventsNoDisconnect(rows: seq<Row>, net: seq<Outcome>)
    requires |net| == |rows|
    ensures forall i | 0 <= i < |RowsEvents(rows, net)| :: !RowsEvents(rows, net)[i].Disconnect?
  {
    if rows != [] {
      var n := |rows| - 1;
      RowsEventsNoDisconnect(rows[..n], net[..n]);
      RowsEventsLast(rows, net);
    }
  }

  // ---------------------------------------------------------------------
  // A whole run

  /** On both exit paths the session is released exactly once, and the
      release is the last thing the run does. */
  lemma RunDisconnectsOnceAtEnd(rows: seq<Row>, net: seq<Outcome>)
    requires |net| == |rows|
    ensures DisconnectsOnceAtEnd(RunTrace(rows, net))
  {
    if rows != [] {
      RowsEventsNoDisconnect(rows, net);
    }
  }

  /** A run over a single matching row: that row's events, then the
      disconnect. */
  lemma RunOneRow(row: Row, o: Outcome)
    ensures RunTrace([row], [o]) == RowEvents(row, o) + [Event.Disconnect]
  {
    assert [row][..0] == [] && [o][..0] == [];
    RowsEventsLast([row], [o]);
  }

  /** The early exit: with no matching rows the run only disconnects, and
      with at least one it starts by looking up the first row. */
  lemma EarlyExit(rows: seq<Row>, net: seq<Outcome>)
    requires |net| == |rows|
    ensures rows == [] <==> RunTrace(rows, net) == [Event.Disconnect]
    ensures rows != [] ==> RunTrace(rows, net)[0] == Resolve(rows[0].phone)
  {
    if rows != [] {
      RowsEventsAppend([rows[0]], [net[0]], rows[1..], net[1..]);
      assert [rows[0]] + rows[1..] == rows;
      assert [net[0]] + net[1..] == net;
      assert [rows[0]][..0] == [] && [net[0]][..0] == [];
      RowsEventsLast([rows[0]], [net[0]]);
    }
  }

  /** Every row is looked up exactly once and in the filtered order. */
  lemma RunLooksUpInOrder(rows: seq<Row>, net: seq<Outcome>)
    requires |net| == |rows|
    ensures LookedUp(RunTrace(rows, net)) == Phones(rows)
  {
    RowsEventsCounts(rows, net);
    LookedUpAppend(RowsEvents(rows, net), [Event.Disconnect]);
    assert [Event.Disconnect][..0] == [];
  }

  /** Each resolved row gets two sends, each unresolved row one skip, and
      there is exactly one disconnect. */
  lemma RunCounts(rows: seq<Row>, net: seq<Outcome>)
    requires |net| == |rows|
    ensures Count(RunTrace(rows, net), ResolveKind) == |rows|
    ensures Count(RunTrace(rows, net), SendKind) == 2 * Resolved(net)
    ensures Count(RunTrace(rows, net), SkipKind) == |rows| - Resolved(net)
    ensures Count(RunTrace(rows, net), DisconnectKind) == 1
  {
    var body := RowsEvents(rows, net);
    RowsEventsCounts(rows, net);
    CountAppend(body, [Event.Disconnect], ResolveKind);
    CountAppend(body, [Event.Disconnect], SendKind);
    CountAppend(body, [Event.Disconnect], SkipKind);
    CountAppend(body, [Event.Disconnect], DisconnectKind);
    assert [Event.Disconnect][..0] == [];
  }

  /** The three-part decomposition of a run around row i: the rows
      before it, its own events, the rows after it, the disconnect. */
  lemma Split(rows: seq<Row>, net: seq<Outcome>, i: nat)
    requires |net| == |rows| && i < |rows|
    ensures RunTrace(rows, net) ==
      RowsEvents(rows[..i], net[..i]) + RowEvents(rows[i], net[i]) +
      RowsEvents(rows[i + 1..], net[i + 1..]) + [Event.Disconnect]
  {
    RowsEventsAppend(rows[..i + 1], net[..i + 1], rows[i + 1..], net[i + 1..]);
    assert rows[..i + 1] + rows[i + 1..] == rows;
    assert net[..i + 1] + net[i + 1..] == net;
    assert rows[..i + 1][..i] == rows[..i];
    assert net[..i + 1][..i] == net[..i];
  }

  /** Partial-failure isolation: whatever the network answers for row i
      (a failed lookup, a failed send), the events of every other row stay
      exactly as they were, the rows after it are still handled, and only
      row i's own events change. */
  lemma RowIsolated(rows: seq<Row>, net: seq<Outcome>, i: nat, o: Outcome)
    requires |net| == |rows| && i < |rows|
    ensures var before := RowsEvents(rows[..i], net[..i]);
            var after := RowsEvents(rows[i + 1..], net[i + 1..]);
      RunTrace(rows, net) == before + RowEvents(rows[i], net[i]) + after + [Event.Disconnect] &&
      RunTrace(rows, net[i := o]) == before + RowEvents(rows[i], o) + after + [Event.Disconnect]
  {
    Split(rows, net, i);
    var net2 := net[i := o];
    assert net2[..i] == net[..i] && net2[i + 1..] == net[i + 1..];
    Split(rows, net2, i);
  }
}
