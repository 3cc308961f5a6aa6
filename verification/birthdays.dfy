/** The script's `main`: open a session, normalise and filter the table,
    then look up and greet every row whose birthday is today, and release
    the session. The messaging client is a class whose network answers
    come from an oracle; the events it records are the run's trace. */
module Birthdays {
  import opened Contacts
  import opened Trace

  /** The messaging session. `connected` is true between `Start` and
      `Disconnect`; `events` records what the run has done so far. */
  class Client {
    var connected: bool
    var events: seq<Event>

    /** Authentication; the one-time-code exchange is not modelled. */
    constructor Start()
      ensures connected && events == []
    {
      connected := true;
      events := [];
    }

    /** Looks up the contact for `phone`; `found` is the network's answer. */
    method GetEntity(phone: string, found: bool) returns (ok: bool)
      requires connected
      modifies this
      ensures connected && ok == found
      ensures events == old(events) + [Resolve(phone)]
    {
      events := events + [Resolve(phone)];
      ok := found;
    }

    /** Records that the row for `phone` was skipped. */
    method NoteSkip(phone: string)
      requires connected
      modifies this
      ensures connected && events == old(events) + [Skip(phone)]
    {
      events := events + [Skip(phone)];
    }

    /** Sends `text` to `phone`; `delivered` is the network's answer. A
        failure is recorded, not raised. */
    method SendMessage(phone: string, text: string, delivered: bool) returns (ok: bool)
      requires connected
      modifies this
      ensures connected && ok == delivered
      ensures events == old(events) + [Send(phone, text, delivered)]
    {
      events := events + [Send(phone, text, delivered)];
      ok := delivered;
    }

    /** Releases the session; only a connected client can be released. */
    method Disconnect()
      requires connected
      modifies this
      ensures !connected && events == old(events) + [Event.Disconnect]
    {
      events := events + [Event.Disconnect];
      connected := false;
    }
  }

  /** The inner loop over the two templates: both greetings go to the
      row, in template order, each attempted whatever became of the other. */
  method Greet(client: Client, row: Row, o: Outcome)
    requires client.connected
    modifies client
    ensures client.connected
    ensures client.events == old(client.events) +
      [Send(row.phone, BirthdayText(row.firstName), o.firstSent),
       Send(row.phone, CongratsText(row.otherName), o.secondSent)]
  {
    var texts, oks := Greetings(row), Delivered(o);
    for j := 0 to |texts|
      invariant client.connected
      invariant client.events == old(client.events) + Sends(row.phone, texts[..j], oks[..j])
    {
      assert texts[..j + 1][..j] == texts[..j] && oks[..j + 1][..j] == oks[..j];
      var _ := client.SendMessage(row.phone, texts[j], oks[j]);
    }
    assert texts[..|texts|] == texts && oks[..|oks|] == oks;
    GreetingsSends(row, o);
  }

  /** One pass of the outer loop: the row is looked up; if it cannot be
      resolved it is skipped (the loop's `continue`), otherwise it is
      greeted. */
  method HandleRow(client: Client, row: Row, o: Outcome)
    requires client.connected
    modifies client
    ensures client.connected
    ensures client.events == old(client.events) + RowEvents(row, o)
  {
    var found := client.GetEntity(row.phone, o.resolves);
    if !found {
      client.NoteSkip(row.phone);
      return;
    }
    Greet(client, row, o);
  }

  /** The outer loop: every row in order is looked up; a row that cannot
      be resolved is skipped and the loop goes on with the next one. */
  method HandleRows(client: Client, rows: seq<Row>, net: seq<Outcome>)
    requires client.connected && |net| == |rows|
    modifies client
    ensures client.connected
    ensures client.events == old(client.events) + RowsEvents(rows, net)
  {
    for i := 0 to |rows|
      invariant client.connected
      invariant client.events == old(client.events) + RowsEvents(rows[..i], net[..i])
    {
      RowsEventsStep(rows, net, i);
      ghost var done := RowsEvents(rows[..i], net[..i]);
      HandleRow(client, rows[i], net[i]);
      assert client.events == old(client.events) + (done + RowEvents(rows[i], net[i]));
    }
    assert rows[..|rows|] == rows && net[..|net|] == net;
  }

  /** One run over `table` on the date `today`, with `net[i]` the network's
      answers for the i-th row whose birthday is today. The run's events
      are the trace `RunTrace` prescribes; in particular the session
      is released exactly once, as the last event, and the rows are looked
      up one by one in the filtered order. */
  method SendBirthdays(table: seq<Row>, today: Date, net: seq<Outcome>) returns (trace: seq<Event>)
    requires |net| == |FilterToday(NormalizePhones(table), today)|
    ensures trace == RunTrace(FilterToday(NormalizePhones(table), today), net)
    ensures DisconnectsOnceAtEnd(trace)
    ensures LookedUp(trace) == Phones(FilterToday(NormalizePhones(table), today))
  {
    var client := new Client.Start();
    var df := NormalizePhones(table);
    var dfToday := FilterToday(df, today);
    assert DisconnectsOnceAtEnd(RunTrace(dfToday, net)) by { RunDisconnectsOnceAtEnd(dfToday, net); }
    assert LookedUp(RunTrace(dfToday, net)) == Phones(dfToday) by { RunLooksUpInOrder(dfToday, net); }

    if dfToday == [] {
      client.Disconnect();
      trace := client.events;
      return;
    }

    HandleRows(client, dfToday, net);
    assert client.events == RowsEvents(dfToday, net);
    client.Disconnect();
    trace := client.events;
  }

  /** A two-row table whose first row alone has its birthday today keeps
      just that row, its phone normalised. */
  lemma FirstOfTwoMatches(a: Row, b: Row, today: Date)
    requires IsBirthdayOn(a, today) && !IsBirthdayOn(b, today)
    ensures FilterToday(NormalizePhones([a, b]), today) == [a.(phone := Phone.Normalize(a.phone))]
  {
  }

  /** A caller's view: one contact whose birthday is today, with a phone
      written without the prefix, receives both greetings at the
      normalised number. */
  method OneBirthdayScenario() {
    var today := Date(2024, 6, 15);
    var asha := Row("919999999999", "Asha", "Rao", Some(Date(1990, 6, 15)));
    var other := Row("+441234", "Bo", "Li", Some(Date(1990, 7, 15)));
    var plus := Phone.Normalize(asha.phone);
    Phone.NormalizeAddsPrefix(asha.phone);
    var normalized := asha.(phone := plus);
    FirstOfTwoMatches(asha, other, today);
    var net := [Outcome(true, true, true)];
    var trace := SendBirthdays([asha, other], today, net);
    assert trace == RunTrace([normalized], net);
    RunOneRow(normalized, net[0]);
    assert |trace| == 4 && trace[0] == Resolve(plus) && trace[3] == Event.Disconnect;
    assert trace[1] == Send(plus, BirthdayText("Asha"), true);
    assert trace[2] == Send(plus, CongratsText("Rao"), true);
  }

  /** A table with no birthday today: the run only disconnects. */
  method NoBirthdayScenario() {
    var today := Date(2024, 6, 15);
    var other := Row("+441234", "Bo", "Li", Some(Date(1990, 7, 15)));
    assert [other][..0] == [];
    assert FilterToday([other], today) == [];
    var trace := SendBirthdays([other], today, []);
    assert trace == [Event.Disconnect];
  }
}
