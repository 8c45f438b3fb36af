/** Who gets a message over many calls (mailpile/smtp_client.py:99-158, 354-399). */
module DeliveryRuns {
  import opened Delivery

  /** The flags before, between and after the calls. */
  ghost predicate IsRun(flags: seq<Flags>, calls: seq<Call>) {
    |flags| == |calls| + 1 && forall i :: 0 <= i < |calls| ==> IsCall(flags[i], flags[i + 1], calls[i])
  }

  /** One of the first n calls delivered to the recipient and noted it in the event. */
  ghost predicate SentBefore(calls: seq<Call>, n: nat, ev: Event, key: string)
    requires n <= |calls|
  {
    exists i :: 0 <= i < n && Sent(calls[i].sent + calls[i].part, ev, key)
  }

  /** Over every run a recipient is marked if and only if it was at first, or one of the calls marked it. */
  lemma {:induction false} RunAccounts(flags: seq<Flags>, calls: seq<Call>, n: nat, ev: Event, key: string)
    requires IsRun(flags, calls) && n <= |calls|
    ensures flags[n].Keys == flags[0].Keys
    ensures ev in flags[0] ==>
              (Marked(flags[n], ev, key) <==> Marked(flags[0], ev, key) || SentBefore(calls, n, ev, key))
  {
    hide Sent, On, RoutesOk, IsPart, Flat;
    if n == 0 {
    } else {
      RunAccounts(flags, calls, n - 1, ev, key);
      assert IsCall(flags[n - 1], flags[n - 1 + 1], calls[n - 1]);
      var sent := Sent(calls[n - 1].sent + calls[n - 1].part, ev, key);
    }
  }

  /** Who is routed, over every run: call n has the recipient in one of its groups if and only if the tuple
      names it, none of the tuple's events marked it at the start, and no call before delivered to it and
      noted that in one of them. */
  lemma RoutedExactly(flags: seq<Flags>, calls: seq<Call>, n: nat, t: nat, x: string)
    requires IsRun(flags, calls) && n < |calls| && t < |calls[n].mails| && t < |calls[n].groups|
    ensures var m, out := calls[n].mails[t], calls[n].groups[t];
            (exists k :: 0 <= k < |out| && x in out[k].to) <==>
              && x != "" && x in m.to
              && forall ev :: ev in m.events ==>
                   !Marked(flags[0], ev, Key(m.frm, x)) && !SentBefore(calls, n, ev, Key(m.frm, x))
  {
    var m, out := calls[n].mails[t], calls[n].groups[t];
    var key := Key(m.frm, x);
    assert IsCall(flags[n], flags[n + 1], calls[n]);
    var pending := Pending(flags[n], m, |m.to|);
    assert Groups(out, m, pending, calls[n].router);
    forall ev | ev in m.events
      ensures ev in flags[0]
      ensures Marked(flags[n], ev, key) <==> Marked(flags[0], ev, key) || SentBefore(calls, n, ev, key)
    {
      RunAccounts(flags, calls, n, ev, key);
      assert ev in EventsOf(m) && EventsOf(m) <= AllEvents(calls[n].mails) <= flags[n].Keys;
    }
    MarkedByAnyMeans(flags[n], m.events, key);
    hide MarkedByAny, Marked, SentBefore, Groups, Pending, IsCall, IsRun;
    PendingMeans(flags[n], m, |m.to|, x);
    assert m.to[..|m.to|] == m.to;
    RoutedIsPending(out, m, pending, calls[n].router, x);
  }

  lemma RoutedIsPending(out: seq<Routed>, m: Mail, pending: seq<string>, router: Router, x: string)
    requires Groups(out, m, pending, router)
    ensures (exists k :: 0 <= k < |out| && x in out[k].to) <==> x in pending
  {
    GroupsPartition(out, m, pending, router, x);
    TimesMeans(pending, x);
    if x in pending {
      var i :| 0 <= i < |out| && Times(out[i].to, x) == Times(pending, x);
      TimesMeans(out[i].to, x);
    }
  }

  /** A recipient that a call delivered to, and marked, is in no group of a later call, of any tuple with the
      same sender and an event of that group. */
  lemma DeliveredIsNeverRouted(flags: seq<Flags>, calls: seq<Call>, i: nat, n: nat, t: nat, g: Routed, ev: Event,
                               x: string)
    requires IsRun(flags, calls) && i < n < |calls| && t < |calls[n].mails| && t < |calls[n].groups|
    requires g in calls[i].sent && x in g.to && ev in g.events
    requires ev in calls[n].mails[t].events && calls[n].mails[t].frm == g.frm
    ensures forall k :: 0 <= k < |calls[n].groups[t]| ==> x !in calls[n].groups[t][k].to
  {
    var all := calls[i].sent + calls[i].part;
    var a :| 0 <= a < |calls[i].sent| && calls[i].sent[a] == g;
    var j :| 0 <= j < |g.to| && g.to[j] == x;
    assert IsKey(g.frm, g.to, Key(g.frm, x));
    assert all[a] == g && SentBy(all[a], ev, Key(g.frm, x));
    assert SentBefore(calls, n, ev, Key(g.frm, x));
    hide SentBefore, Sent, IsRun;
    RoutedExactly(flags, calls, n, t, x);
  }

  // --- By sender and recipient -------------------------------------------------

  /** The group says that the recipient got the message from the sender, as far as the code can tell. */
  predicate Names(g: Routed, frm: string, x: string) {
    exists j :: 0 <= j < |g.to| &&
      ((g.frm == frm && g.to[j] == x) || Confused(g.frm, g.to[j], frm, x) || Confused(frm, x, g.frm, g.to[j]))
  }

  lemma NamesIsKey(g: Routed, frm: string, x: string)
    ensures Names(g, frm, x) <==> IsKey(g.frm, g.to, Key(frm, x))
  {
    hide Key, Confused;
    forall j | 0 <= j < |g.to|
      ensures Key(frm, x) == Key(g.frm, g.to[j]) <==>
              || (g.frm == frm && g.to[j] == x)
              || Confused(g.frm, g.to[j], frm, x) || Confused(frm, x, g.frm, g.to[j])
    {
      SameKeyExactly(frm, x, g.frm, g.to[j]);
    }
  }

  /** Without ">" in the senders that is just the sender and the recipient. */
  lemma NamesPlainly(g: Routed, frm: string, x: string)
    requires '>' !in frm && '>' !in g.frm
    ensures Names(g, frm, x) <==> g.frm == frm && x in g.to
  {
    hide Key, Confused;
    forall j | 0 <= j < |g.to|
      ensures !Confused(g.frm, g.to[j], frm, x) && !Confused(frm, x, g.frm, g.to[j])
    {
      SameKeyExactly(frm, x, g.frm, g.to[j]);
      SameKeyExactly(g.frm, g.to[j], frm, x);
    }
  }

  /** One of the first n calls delivered a group, or a part of one, that names the recipient with the event. */
  ghost predicate NotedBefore(calls: seq<Call>, n: nat, ev: Event, frm: string, x: string)
    requires n <= |calls|
  {
    exists i, g :: 0 <= i < n && g in calls[i].sent + calls[i].part && ev in g.events && Names(g, frm, x)
  }

  lemma NotedIsSent(calls: seq<Call>, n: nat, ev: Event, frm: string, x: string)
    requires n <= |calls|
    ensures NotedBefore(calls, n, ev, frm, x) <==> SentBefore(calls, n, ev, Key(frm, x))
  {
    hide Key, Names, IsKey;
    if NotedBefore(calls, n, ev, frm, x) {
      var i, g :| 0 <= i < n && g in calls[i].sent + calls[i].part && ev in g.events && Names(g, frm, x);
      NamesIsKey(g, frm, x);
      var gs := calls[i].sent + calls[i].part;
      var a :| 0 <= a < |gs| && gs[a] == g;
      assert SentBy(gs[a], ev, Key(frm, x));
    }
    if SentBefore(calls, n, ev, Key(frm, x)) {
      var i :| 0 <= i < n && Sent(calls[i].sent + calls[i].part, ev, Key(frm, x));
      var gs := calls[i].sent + calls[i].part;
      var a :| 0 <= a < |gs| && SentBy(gs[a], ev, Key(frm, x));
      NamesIsKey(gs[a], frm, x);
    }
  }

  /** Every run that starts without marks, by sender and recipient: call n has the recipient in one of its groups if
      and only if the tuple names it, it is not blank, and no call before delivered a group that names it and noted
      that in one of the tuple's events. */
  lemma RoutedByName(flags: seq<Flags>, calls: seq<Call>, n: nat, t: nat, x: string)
    requires IsRun(flags, calls) && n < |calls| && t < |calls[n].mails| && t < |calls[n].groups|
    requires forall ev, key :: !Marked(flags[0], ev, key)
    ensures var m, out := calls[n].mails[t], calls[n].groups[t];
            (exists k :: 0 <= k < |out| && x in out[k].to) <==>
              && x != "" && x in m.to
              && forall ev :: ev in m.events ==> !NotedBefore(calls, n, ev, m.frm, x)
  {
    hide IsRun, Marked, NotedBefore, SentBefore, Key;
    RoutedExactly(flags, calls, n, t, x);
    var m := calls[n].mails[t];
    forall ev | ev in m.events
      ensures NotedBefore(calls, n, ev, m.frm, x) <==> SentBefore(calls, n, ev, Key(m.frm, x))
    {
      NotedIsSent(calls, n, ev, m.frm, x);
    }
  }

  /** The first of two calls: "a" writes to "b>c", who gets the message. */
  function FirstCall(ev: Event, router: Router): Call {
    var g := Routed("a", router("a", "b>c"), ["b>c"], [ev]);
    Call([Mail("a", ["b>c"], [ev])], router, [[g]], [g], [])
  }

  /** The second one: "a>b" writes to "c", with the same event, and nobody is routed. */
  function SecondCall(ev: Event, router: Router): Call {
    Call([Mail("a>b", ["c"], [ev])], router, [[]], [], [])
  }

  function MarkedAfter(ev: Event): Flags {
    map[ev := map[Key("a", "b>c") := true]]
  }

  /** Such a ">" does its harm: over a run that starts without marks, a recipient that nobody ever wrote to is not
      routed. */
  lemma ConfusedRun(ev: Event, router: Router)
    ensures IsRun([map[ev := map[]], MarkedAfter(ev), MarkedAfter(ev)], [FirstCall(ev, router), SecondCall(ev, router)])
  {
    FirstIsCall(ev, router);
    SecondIsCall(ev, router);
    hide IsCall, FirstCall, SecondCall, MarkedAfter;
  }

  lemma FirstIsCall(ev: Event, router: Router)
    ensures IsCall(map[ev := map[]], MarkedAfter(ev), FirstCall(ev, router))
  {
    var c := FirstCall(ev, router);
    var g := c.sent[0];
    FirstGroups(ev, router);
    FirstMarks(ev, g);
    FlatOne(g);
    OneEvent(c.mails[0], ev);
    hide RoutesOk, Adds, Key, PartOf, AllEvents, Flat;
    assert c.sent + c.part == [g];
  }

  lemma OneEvent(m: Mail, ev: Event)
    requires m.events == [ev]
    ensures AllEvents([m]) <= {ev}
  {
    hide AllEvents;
    forall e | e in AllEvents([m])
      ensures e == ev
    {
      var i :| 0 <= i < |[m]| && e in [m][i].events;
    }
  }

  lemma FlatOne(g: Routed)
    ensures Flat([[g]]) == [g]
  {
    assert [[g]][..0] == [] && Flat([[g]][..0]) == [];
  }

  lemma FirstGroups(ev: Event, router: Router)
    ensures RoutesOk(map[ev := map[]], FirstCall(ev, router))
  {
    var before: Flags, c := map[ev := map[]], FirstCall(ev, router);
    var m, g := c.mails[0], c.sent[0];
    assert Pending(before, m, 0) == [] && Pending(before, m, 1) == ["b>c"];
    hide Pending;
    assert OnRoute([], "a", g.route, router) == [];
    assert ["b>c"][..0] == [];
    assert OnRoute(["b>c"], "a", g.route, router) == ["b>c"];
    assert HasRoute([g], g.route) by {
      assert [g][0].route == g.route;
    }
  }

  lemma FirstMarks(ev: Event, g: Routed)
    requires g.frm == "a" && g.to == ["b>c"] && g.events == [ev]
    ensures Adds(map[ev := map[]], MarkedAfter(ev), [g])
  {
    hide Key;
    forall e, key
      ensures Sent([g], e, key) <==> e == ev && key == Key("a", "b>c")
    {
      assert g.to[0] == "b>c";
      if e == ev && key == Key("a", "b>c") {
        assert SentBy([g][0], e, key);
      }
    }
  }

  lemma SecondIsCall(ev: Event, router: Router)
    ensures IsCall(MarkedAfter(ev), MarkedAfter(ev), SecondCall(ev, router))
  {
    var flags, c := MarkedAfter(ev), SecondCall(ev, router);
    var m := c.mails[0];
    assert Key("a", "b>c") == "a>b>c" == Key("a>b", "c");
    assert Marked(flags, m.events[0], Key(m.frm, m.to[0]));
    assert MarkedByAny(flags, m.events, Key(m.frm, m.to[0]));
    assert Pending(flags, m, 1) == [];
    OneEvent(m, ev);
    assert c.groups[..0] == [] && Flat(c.groups) == [];
    hide AllEvents, Flat;
    assert c.sent + c.part == [];
  }
}
