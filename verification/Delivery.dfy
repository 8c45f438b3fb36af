/** Routing and sending mail: who still has to get a message, and who has got it
    (mailpile/smtp_client.py:99-158, 188-189, 354-399). */
module Delivery {

  type Route = string

  /** The log entry of a delivery; it notes for each sender and recipient whether the message went out. */
  class Event {
    var private_data: map<string, bool>

    constructor ()
      ensures private_data == map[]
    {
      private_data := map[];
    }
  }

  datatype Mail = Mail(frm: string, to: seq<string>, events: seq<Event>)

  datatype Routed = Routed(frm: string, route: Route, to: seq<string>, events: seq<Event>)

  /** How the configuration routes mail; a parameter. */
  type Router = (string, string) -> Route

  function Key(frm: string, rcpt: string): string {
    frm + ">" + rcpt
  }

  /** The one address pair reads as the other: the second sender begins with the first one and ">", and the recipients
      differ by the rest. */
  predicate Confused(frm: string, rcpt: string, frm': string, rcpt': string) {
    && |frm| < |frm'| && |frm'| - |frm| <= |rcpt|
    && frm'[..|frm|] == frm && frm'[|frm|] == '>'
    && rcpt == frm'[|frm| + 1..] + ">" + rcpt'
  }

  /** Two keys are the same only for the same sender and recipient, or if one sender holds a ">" in the wrong place. */
  lemma SameKeyExactly(frm: string, rcpt: string, frm': string, rcpt': string)
    ensures Key(frm, rcpt) == Key(frm', rcpt') <==>
            || (frm == frm' && rcpt == rcpt')
            || Confused(frm, rcpt, frm', rcpt') || Confused(frm', rcpt', frm, rcpt)
    ensures Confused(frm, rcpt, frm', rcpt') ==> '>' in frm'
  {
    KeyParts(frm, rcpt);
    KeyParts(frm', rcpt');
    if Key(frm, rcpt) == Key(frm', rcpt') {
      if |frm| < |frm'| {
        LongerSender(frm, rcpt, frm', rcpt');
      } else if |frm'| < |frm| {
        LongerSender(frm', rcpt', frm, rcpt);
      } else {
        assert frm == Key(frm, rcpt)[..|frm|] && rcpt == Key(frm, rcpt)[|frm| + 1..];
      }
    }
    if Confused(frm, rcpt, frm', rcpt') {
      ConfusedKeys(frm, rcpt, frm', rcpt');
    }
    if Confused(frm', rcpt', frm, rcpt) {
      ConfusedKeys(frm', rcpt', frm, rcpt);
    }
  }

  lemma KeyParts(frm: string, rcpt: string)
    ensures var k := Key(frm, rcpt);
            |k| == |frm| + 1 + |rcpt| && k[..|frm|] == frm && k[|frm|] == '>' && k[|frm| + 1..] == rcpt
  {
  }

  lemma LongerSender(frm: string, rcpt: string, frm': string, rcpt': string)
    requires Key(frm, rcpt) == Key(frm', rcpt') && |frm| < |frm'|
    ensures Confused(frm, rcpt, frm', rcpt')
  {
    var key := Key(frm, rcpt);
    KeyParts(frm, rcpt);
    KeyParts(frm', rcpt');
    assert key[..|frm'|][..|frm|] == key[..|frm|];
    assert key[..|frm'|][|frm| + 1..] + key[|frm'|..] == key[|frm| + 1..];
    assert key[|frm'|..] == [key[|frm'|]] + key[|frm'| + 1..];
  }

  lemma ConfusedKeys(frm: string, rcpt: string, frm': string, rcpt': string)
    requires Confused(frm, rcpt, frm', rcpt')
    ensures Key(frm, rcpt) == Key(frm', rcpt') && '>' in frm'
  {
    assert frm' == frm'[..|frm|] + [frm'[|frm|]] + frm'[|frm| + 1..];
    assert Key(frm, rcpt) == frm + ">" + (frm'[|frm| + 1..] + ">" + rcpt');
    assert Key(frm', rcpt') == frm + ">" + frm'[|frm| + 1..] + ">" + rcpt';
  }

  // --- Flags as values -------------------------------------------------------

  type Flags = map<Event, map<string, bool>>

  predicate On(data: map<string, bool>, key: string) {
    key in data && data[key]
  }

  predicate Marked(flags: Flags, ev: Event, key: string) {
    ev in flags && On(flags[ev], key)
  }

  predicate MarkedByAny(flags: Flags, events: seq<Event>, key: string) {
    exists i :: 0 <= i < |events| && Marked(flags, events[i], key)
  }

  /** The recipients that no event marks as delivered; blank ones are skipped. */
  function Pending(flags: Flags, m: Mail, n: nat): (p: seq<string>)
    requires n <= |m.to|
  {
    if n == 0 then []
    else if m.to[n - 1] != "" && !MarkedByAny(flags, m.events, Key(m.frm, m.to[n - 1])) then
      Pending(flags, m, n - 1) + [m.to[n - 1]]
    else Pending(flags, m, n - 1)
  }

  /** Those of the recipients that use a route, in order. */
  function OnRoute(rcpts: seq<string>, frm: string, r: Route, router: Router): seq<string> {
    if rcpts == [] then []
    else
      var n := |rcpts| - 1;
      OnRoute(rcpts[..n], frm, r, router) + (if router(frm, rcpts[n]) == r then [rcpts[n]] else [])
  }

  /** What `_RouteTuples` makes of one tuple: for every route that a pending recipient uses, one group with
      all those recipients. */
  predicate Groups(out: seq<Routed>, m: Mail, pending: seq<string>, router: Router) {
    && (forall i :: 0 <= i < |out| ==>
          out[i].frm == m.frm && out[i].events == m.events
          && out[i].to != [] && out[i].to == OnRoute(pending, m.frm, out[i].route, router))
    && (forall i, j :: 0 <= i < j < |out| ==> out[i].route != out[j].route)
    && (forall k :: 0 <= k < |pending| ==> HasRoute(out, router(m.frm, pending[k])))
  }

  predicate HasRoute(out: seq<Routed>, r: Route) {
    exists i :: 0 <= i < |out| && out[i].route == r
  }

  lemma HasRouteMore(out: seq<Routed>, g: Routed, r: Route)
    ensures HasRoute(out + [g], r) <==> HasRoute(out, r) || g.route == r
  {
    var more := out + [g];
    assert more[|out|] == g;
    if HasRoute(out, r) {
      var i :| 0 <= i < |out| && out[i].route == r;
      assert more[i].route == r;
    }
  }

  function Times(s: seq<string>, x: string): nat {
    if s == [] then 0 else Times(s[..|s| - 1], x) + (if s[|s| - 1] == x then 1 else 0)
  }

  lemma TimesMore(s: seq<string>, y: string, x: string)
    ensures Times(s + [y], x) == Times(s, x) + (if y == x then 1 else 0)
  {
    assert (s + [y])[..|s|] == s;
  }

  lemma {:induction false} OnRouteTimes(rcpts: seq<string>, frm: string, r: Route, router: Router, x: string)
    ensures Times(OnRoute(rcpts, frm, r, router), x) == if router(frm, x) == r then Times(rcpts, x) else 0
  {
    if rcpts == [] {
    } else {
      var n := |rcpts| - 1;
      OnRouteTimes(rcpts[..n], frm, r, router, x);
      var init := OnRoute(rcpts[..n], frm, r, router);
      assert rcpts == rcpts[..n] + [rcpts[n]];
      assert OnRoute(rcpts, frm, r, router) == if router(frm, rcpts[n]) == r then init + [rcpts[n]] else init;
      hide Times, OnRoute;
      TimesMore(init, rcpts[n], x);
      TimesMore(rcpts[..n], rcpts[n], x);
    }
  }

  lemma {:induction false} TimesMeans(s: seq<string>, x: string)
    ensures Times(s, x) > 0 <==> x in s
  {
    if s == [] {
    } else {
      TimesMeans(s[..|s| - 1], x);
      assert s == s[..|s| - 1] + [s[|s| - 1]];
    }
  }

  /** The groups partition the pending recipients: each is in the one group of its route, as often as it is
      pending, and nobody else is in any group. */
  lemma GroupsPartition(out: seq<Routed>, m: Mail, pending: seq<string>, router: Router, x: string)
    requires Groups(out, m, pending, router)
    ensures x in pending ==>
              exists i :: 0 <= i < |out| && Times(out[i].to, x) == Times(pending, x)
                          && forall j :: 0 <= j < |out| && j != i ==> x !in out[j].to
    ensures x !in pending ==> forall j :: 0 <= j < |out| ==> x !in out[j].to
  {
    TimesMeans(pending, x);
    forall j | 0 <= j < |out|
      ensures Times(out[j].to, x) == if router(m.frm, x) == out[j].route then Times(pending, x) else 0
      ensures Times(out[j].to, x) > 0 <==> x in out[j].to
    {
      OnRouteTimes(pending, m.frm, out[j].route, router, x);
      TimesMeans(out[j].to, x);
    }
    if x in pending {
      var k :| 0 <= k < |pending| && pending[k] == x;
      var i :| 0 <= i < |out| && out[i].route == router(m.frm, pending[k]);
      forall j | 0 <= j < |out| && j != i
        ensures x !in out[j].to
      {
        assert out[j].route != out[i].route;
      }
    }
  }

  lemma {:induction false} PendingMeans(flags: Flags, m: Mail, n: nat, x: string)
    requires n <= |m.to|
    ensures x in Pending(flags, m, n) <==> x != "" && x in m.to[..n] && !MarkedByAny(flags, m.events, Key(m.frm, x))
  {
    if n == 0 {
    } else {
      PendingMeans(flags, m, n - 1, x);
      assert m.to[..n] == m.to[..n - 1] + [m.to[n - 1]];
    }
  }

  predicate Ascending(at: seq<nat>) {
    forall i, j :: 0 <= i < j < |at| ==> at[i] < at[j]
  }

  lemma AscendingMore(at: seq<nat>, n: nat)
    requires Ascending(at) && forall i :: i in at ==> i < n
    ensures Ascending(at + [n])
  {
    assert forall i :: 0 <= i < |at| ==> at[i] in at;
  }

  /** The pending recipients are those that are not blank and not marked, each in its place. */
  lemma {:induction false} PendingAt(flags: Flags, m: Mail, n: nat) returns (at: seq<nat>)
    requires n <= |m.to|
    ensures Ascending(at) && |at| == |Pending(flags, m, n)|
    ensures forall i: nat :: i in at <==>
              && i < n && m.to[i] != ""
              && forall ev :: ev in m.events ==> !Marked(flags, ev, Key(m.frm, m.to[i]))
    ensures forall k :: 0 <= k < |at| && at[k] < |m.to| ==> Pending(flags, m, n)[k] == m.to[at[k]]
  {
    hide Key, On;
    if n == 0 {
      at := [];
    } else {
      at := PendingAt(flags, m, n - 1);
      var key := Key(m.frm, m.to[n - 1]);
      MarkedByAnyMeans(flags, m.events, key);
      var init, all := Pending(flags, m, n - 1), Pending(flags, m, n);
      assert all == if m.to[n - 1] != "" && !MarkedByAny(flags, m.events, key) then init + [m.to[n - 1]] else init;
      hide Pending, Marked, MarkedByAny;
      forall k | 0 <= k < |at|
        ensures at[k] < n - 1
      {
        assert at[k] in at;
      }
      if m.to[n - 1] != "" && !MarkedByAny(flags, m.events, key) {
        AscendingMore(at, n - 1);
        at := at + [n - 1];
      }
    }
  }

  lemma MarkedByAnyMeans(flags: Flags, events: seq<Event>, key: string)
    ensures MarkedByAny(flags, events, key) <==> exists ev :: ev in events && Marked(flags, ev, key)
  {
    if ev :| ev in events && Marked(flags, ev, key) {
      var i :| 0 <= i < |events| && events[i] == ev;
    }
    if i :| 0 <= i < |events| && Marked(flags, events[i], key) {
      assert events[i] in events;
    }
  }

  /** Those on a route, each in its place. */
  lemma {:induction false} OnRouteAt(rcpts: seq<string>, frm: string, r: Route, router: Router) returns (at: seq<nat>)
    ensures Ascending(at) && |at| == |OnRoute(rcpts, frm, r, router)|
    ensures forall i: nat :: i in at <==> i < |rcpts| && router(frm, rcpts[i]) == r
    ensures forall k :: 0 <= k < |at| && at[k] < |rcpts| ==> OnRoute(rcpts, frm, r, router)[k] == rcpts[at[k]]
  {
    if rcpts == [] {
      at := [];
    } else {
      var n := |rcpts| - 1;
      at := OnRouteAt(rcpts[..n], frm, r, router);
      var init, all := OnRoute(rcpts[..n], frm, r, router), OnRoute(rcpts, frm, r, router);
      assert all == if router(frm, rcpts[n]) == r then init + [rcpts[n]] else init;
      hide OnRoute;
      forall k | 0 <= k < |at|
        ensures at[k] < n && rcpts[..n][at[k]] == rcpts[at[k]]
      {
        assert at[k] in at;
      }
      if router(frm, rcpts[n]) == r {
        AscendingMore(at, n);
        at := at + [n];
      }
    }
  }

  // --- The code --------------------------------------------------------------

  ghost function Snapshot(events: set<Event>): Flags
    reads events
  {
    map ev | ev in events :: ev.private_data
  }

  function EventsOf(m: Mail): set<Event> {
    set ev | ev in m.events
  }

  /** Does any of the events mark the key? */
  method AnyMarks(events: seq<Event>, key: string, ghost all: set<Event>) returns (yes: bool)
    requires forall ev :: ev in events ==> ev in all
    ensures yes == MarkedByAny(Snapshot(all), events, key)
  {
    for i := 0 to |events|
      invariant forall k :: 0 <= k < i ==> !Marked(Snapshot(all), events[k], key)
    {
      assert events[i] in events;
      if key in events[i].private_data && events[i].private_data[key] {
        assert Marked(Snapshot(all), events[i], key);
        return true;
      }
    }
    return false;
  }

  /** The recipients of each route so far. */
  predicate Sorted(rcpts: map<Route, seq<string>>, frm: string, pending: seq<string>, router: Router) {
    && (forall r :: r in rcpts ==> rcpts[r] != [] && rcpts[r] == OnRoute(pending, frm, r, router))
    && (forall k :: 0 <= k < |pending| ==> router(frm, pending[k]) in rcpts)
  }

  lemma SortedMore(rcpts: map<Route, seq<string>>, frm: string, pending: seq<string>, router: Router, x: string)
    requires Sorted(rcpts, frm, pending, router)
    ensures var r := router(frm, x);
            Sorted(rcpts[r := (if r in rcpts then rcpts[r] else []) + [x]], frm, pending + [x], router)
  {
    var r, more := router(frm, x), pending + [x];
    var rcpts' := rcpts[r := (if r in rcpts then rcpts[r] else []) + [x]];
    assert more[..|pending|] == pending;
    if r !in rcpts {
      NobodyOn(rcpts, frm, pending, router, r);
    }
    forall q | q in rcpts'
      ensures rcpts'[q] != [] && rcpts'[q] == OnRoute(more, frm, q, router)
    {
      assert OnRoute(more, frm, q, router) == OnRoute(pending, frm, q, router) + (if r == q then [x] else []);
    }
  }

  lemma NobodyOn(rcpts: map<Route, seq<string>>, frm: string, pending: seq<string>, router: Router, r: Route)
    requires Sorted(rcpts, frm, pending, router) && r !in rcpts
    ensures OnRoute(pending, frm, r, router) == []
  {
    NobodyUses(frm, pending, router, r);
  }

  lemma {:induction false} NobodyUses(frm: string, pending: seq<string>, router: Router, r: Route)
    requires forall k :: 0 <= k < |pending| ==> router(frm, pending[k]) != r
    ensures OnRoute(pending, frm, r, router) == []
  {
    if pending == [] {
    } else {
      NobodyUses(frm, pending[..|pending| - 1], router, r);
    }
  }

  /** One tuple; the order of its groups is that of a dictionary. */
  method RouteOne(m: Mail, router: Router, ghost all: set<Event>) returns (out: seq<Routed>)
    requires EventsOf(m) <= all
    ensures Groups(out, m, Pending(Snapshot(all), m, |m.to|), router)
  {
    hide Groups, Sorted;
    ghost var flags := Snapshot(all);
    var rcpts: map<Route, seq<string>> := map[];
    assert Sorted(rcpts, m.frm, Pending(flags, m, 0), router) by {
      SortedNone(m.frm, router);
    }
    for i := 0 to |m.to|
      invariant Sorted(rcpts, m.frm, Pending(flags, m, i), router)
    {
      var x := m.to[i];
      var done := AnyMarks(m.events, Key(m.frm, x), all);
      if !done && x != "" {
        SortedMore(rcpts, m.frm, Pending(flags, m, i), router, x);
        var r := router(m.frm, x);
        rcpts := rcpts[r := (if r in rcpts then rcpts[r] else []) + [x]];
      }
    }
    out := GroupAll(m, rcpts, Pending(flags, m, |m.to|), router);
  }

  lemma SortedNone(frm: string, router: Router)
    ensures Sorted(map[], frm, [], router)
  {
  }

  method GroupAll(m: Mail, rcpts: map<Route, seq<string>>, ghost pending: seq<string>, router: Router)
    returns (out: seq<Routed>)
    requires Sorted(rcpts, m.frm, pending, router)
    ensures Groups(out, m, pending, router)
  {
    hide Sorted, Grouped, Groups;
    out := [];
    var todo := rcpts.Keys;
    NothingGrouped(m, rcpts);
    while todo != {}
      invariant todo <= rcpts.Keys && Grouped(out, m, rcpts, todo)
      decreases |todo|
    {
      var r :| r in todo;
      GroupOne(out, m, rcpts, todo, r);
      todo := todo - {r};
      out := out + [Routed(m.frm, r, rcpts[r], m.events)];
    }
    AllGrouped(out, m, rcpts, pending, router);
  }

  /** The groups, when the routes in `todo` are still to come. */
  ghost predicate Grouped(out: seq<Routed>, m: Mail, rcpts: map<Route, seq<string>>, todo: set<Route>) {
    && (forall i :: 0 <= i < |out| ==>
          out[i].route in rcpts && out[i].route !in todo
          && out[i] == Routed(m.frm, out[i].route, rcpts[out[i].route], m.events))
    && (forall i, j :: 0 <= i < j < |out| ==> out[i].route != out[j].route)
    && (forall r :: r in rcpts && r !in todo ==> HasRoute(out, r))
  }

  lemma NothingGrouped(m: Mail, rcpts: map<Route, seq<string>>)
    ensures Grouped([], m, rcpts, rcpts.Keys)
  {
  }

  lemma GroupOne(out: seq<Routed>, m: Mail, rcpts: map<Route, seq<string>>, todo: set<Route>, r: Route)
    requires Grouped(out, m, rcpts, todo) && r in todo && todo <= rcpts.Keys
    ensures Grouped(out + [Routed(m.frm, r, rcpts[r], m.events)], m, rcpts, todo - {r})
  {
    hide HasRoute;
    forall q | q in rcpts && q !in todo - {r}
      ensures HasRoute(out + [Routed(m.frm, r, rcpts[r], m.events)], q)
    {
      HasRouteMore(out, Routed(m.frm, r, rcpts[r], m.events), q);
    }
  }

  lemma AllGrouped(out: seq<Routed>, m: Mail, rcpts: map<Route, seq<string>>, pending: seq<string>, router: Router)
    requires Grouped(out, m, rcpts, {}) && Sorted(rcpts, m.frm, pending, router)
    ensures Groups(out, m, pending, router)
  {
    hide HasRoute, OnRoute;
  }

  /** All events that the mails note their deliveries in. */
  function AllEvents(mails: seq<Mail>): (all: set<Event>)
    ensures forall i :: 0 <= i < |mails| ==> EventsOf(mails[i]) <= all
    ensures forall ev :: ev in all ==> exists i :: 0 <= i < |mails| && ev in mails[i].events
  {
    if mails == [] then {}
    else
      var n := |mails| - 1;
      assert forall i :: 0 <= i < n ==> mails[..n][i] == mails[i];
      AllEvents(mails[..n]) + EventsOf(mails[n])
  }

  /** No event of the group marks any of its recipients, and the group is one of the given mails' groups. */
  ghost predicate Fresh(flags: Flags, g: Routed) {
    && g.to != []
    && forall ev, x :: ev in g.events && x in g.to ==> !Marked(flags, ev, Key(g.frm, x))
  }

  lemma GroupIsFresh(flags: Flags, out: seq<Routed>, m: Mail, router: Router, k: nat)
    requires Groups(out, m, Pending(flags, m, |m.to|), router) && k < |out|
    ensures Fresh(flags, out[k])
  {
    var pending := Pending(flags, m, |m.to|);
    forall ev, x | ev in out[k].events && x in out[k].to
      ensures !Marked(flags, ev, Key(m.frm, x))
    {
      if x !in pending {
        GroupsPartition(out, m, pending, router, x);
        assert false;
      }
      PendingMeans(flags, m, |m.to|, x);
      var i :| 0 <= i < |m.events| && m.events[i] == ev;
      assert !Marked(flags, m.events[i], Key(m.frm, x));
    }
  }

  function Flat(groups: seq<seq<Routed>>): seq<Routed> {
    if groups == [] then [] else Flat(groups[..|groups| - 1]) + groups[|groups| - 1]
  }

  lemma {:induction false} FlatHas(groups: seq<seq<Routed>>, g: Routed)
    ensures g in Flat(groups) <==> exists i :: 0 <= i < |groups| && g in groups[i]
  {
    if groups == [] {
    } else {
      var n := |groups| - 1;
      FlatHas(groups[..n], g);
      if i :| 0 <= i < n && g in groups[..n][i] {
        assert g in groups[i];
      }
      if i :| 0 <= i < |groups| && g in groups[i] && i != n {
        assert g in groups[..n][i];
      }
    }
  }

  /** The groups of all tuples, one tuple after the other. */
  method RouteTuples(mails: seq<Mail>, router: Router) returns (routes: seq<Routed>, ghost groups: seq<seq<Routed>>)
    ensures |groups| == |mails| && routes == Flat(groups)
    ensures forall i :: 0 <= i < |mails| ==>
              Groups(groups[i], mails[i], Pending(Snapshot(AllEvents(mails)), mails[i], |mails[i].to|), router)
    ensures forall k :: 0 <= k < |routes| ==>
              Fresh(Snapshot(AllEvents(mails)), routes[k]) && Within(routes[k], AllEvents(mails))
  {
    hide Groups, Fresh, Within, Pending;
    ghost var all := AllEvents(mails);
    ghost var flags := Snapshot(all);
    routes, groups := [], [];
    for i := 0 to |mails|
      invariant |groups| == i && routes == Flat(groups)
      invariant forall j :: 0 <= j < i ==>
                  Groups(groups[j], mails[j], Pending(flags, mails[j], |mails[j].to|), router)
      invariant forall k :: 0 <= k < |routes| ==> Fresh(flags, routes[k]) && Within(routes[k], all)
    {
      var out := RouteOne(mails[i], router, all);
      forall k | 0 <= k < |out|
        ensures Fresh(flags, out[k]) && Within(out[k], all)
      {
        GroupIsFresh(flags, out, mails[i], router, k);
        GroupIsWithin(out, mails[i], Pending(flags, mails[i], |mails[i].to|), router, k, all);
      }
      assert (groups + [out])[..i] == groups;
      routes, groups := routes + out, groups + [out];
    }
  }

  predicate Within(g: Routed, all: set<Event>) {
    forall ev :: ev in g.events ==> ev in all
  }

  lemma GroupIsWithin(out: seq<Routed>, m: Mail, pending: seq<string>, router: Router, k: nat, all: set<Event>)
    requires Groups(out, m, pending, router) && k < |out| && EventsOf(m) <= all
    ensures Within(out[k], all)
  {
  }

  /** Is this the key of one of the recipients? */
  predicate IsKey(frm: string, to: seq<string>, key: string) {
    exists j :: 0 <= j < |to| && key == Key(frm, to[j])
  }

  lemma IsKeyMore(frm: string, to: seq<string>, n: nat, key: string)
    requires n < |to|
    ensures IsKey(frm, to[..n + 1], key) <==> IsKey(frm, to[..n], key) || key == Key(frm, to[n])
  {
    var a, b := to[..n], to[..n + 1];
    assert b[n] == to[n];
    assert forall j :: 0 <= j < n ==> a[j] == b[j];
  }

  method SetEvent(ev: Event, frm: string, to: seq<string>, value: bool)
    modifies ev
    ensures Updated(ev.private_data, old(ev.private_data), true, frm, to, value)
  {
    hide IsKey, Key;
    assert forall key :: !IsKey(frm, to[..0], key) by {
      NoKeys(frm);
      assert to[..0] == [];
    }
    for j := 0 to |to|
      invariant forall key :: On(ev.private_data, key)
                           == if IsKey(frm, to[..j], key) then value else old(On(ev.private_data, key))
    {
      ghost var was := ev.private_data;
      ev.private_data := ev.private_data[Key(frm, to[j]) := value];
      assert ev.private_data == was[Key(frm, to[j]) := value];
      forall key
        ensures On(ev.private_data, key)
             == if IsKey(frm, to[..j + 1], key) then value else old(On(ev.private_data, key))
      {
        IsKeyMore(frm, to, j, key);
      }
    }
    assert to[..|to|] == to;
  }

  lemma NoKeys(frm: string)
    ensures forall key :: !IsKey(frm, [], key)
  {
  }

  /** Was the key sent by the group, with this event? By one of the groups? */
  predicate SentBy(g: Routed, ev: Event, key: string) {
    ev in g.events && IsKey(g.frm, g.to, key)
  }

  predicate Sent(gs: seq<Routed>, ev: Event, key: string) {
    exists i :: 0 <= i < |gs| && SentBy(gs[i], ev, key)
  }

  lemma SentMore(gs: seq<Routed>, g: Routed, ev: Event, key: string)
    ensures Sent(gs + [g], ev, key) <==> Sent(gs, ev, key) || SentBy(g, ev, key)
  {
    var more := gs + [g];
    assert more[|gs|] == g;
    if Sent(gs, ev, key) {
      var i :| 0 <= i < |gs| && SentBy(gs[i], ev, key);
      assert more[i] == gs[i];
    }
  }

  /** The flags after those of the recipients were set, or, without a hit, left alone. */
  ghost predicate Updated(now: map<string, bool>, was: map<string, bool>, hit: bool,
                          frm: string, to: seq<string>, value: bool)
  {
    forall key :: On(now, key) == if hit && IsKey(frm, to, key) then value else On(was, key)
  }

  lemma UpdatedTwice(now: map<string, bool>, mid: map<string, bool>, was: map<string, bool>, hit: bool,
                     frm: string, to: seq<string>, value: bool)
    requires Updated(now, mid, true, frm, to, value) && Updated(mid, was, hit, frm, to, value)
    ensures Updated(now, was, true, frm, to, value)
  {
    hide IsKey, On;
    forall key
      ensures On(now, key) == if IsKey(frm, to, key) then value else On(was, key)
    {
      var isKey := IsKey(frm, to, key);
    }
  }

  /** Setting one flag for every event and recipient of a group. */
  method SetFlags(g: Routed, value: bool)
    modifies set ev | ev in g.events
    ensures forall ev :: ev in g.events ==>
              Updated(ev.private_data, old(ev.private_data), true, g.frm, g.to, value)
  {
    hide Updated;
    var evs := g.events;
    forall j | 0 <= j < |evs|
      ensures Updated(evs[j].private_data, evs[j].private_data, false, g.frm, g.to, value)
    {
      NotUpdated(evs[j].private_data, g.frm, g.to, value);
    }
    for i := 0 to |evs|
      invariant forall j :: 0 <= j < |evs| ==>
                  Updated(evs[j].private_data, old(evs[j].private_data), evs[j] in evs[..i], g.frm, g.to, value)
    {
      ghost var mid := evs[i].private_data;
      SetEvent(evs[i], g.frm, g.to, value);
      assert evs[..i + 1] == evs[..i] + [evs[i]];
      UpdatedTwice(evs[i].private_data, mid, old(evs[i].private_data), evs[i] in evs[..i], g.frm, g.to, value);
    }
    assert evs[..|evs|] == evs;
  }

  lemma NotUpdated(data: map<string, bool>, frm: string, to: seq<string>, value: bool)
    ensures Updated(data, data, false, frm, to, value)
  {
  }

  /** Nothing is marked that was not, or the other way round. */
  ghost predicate Unmoved(before: Flags, all: set<Event>)
    reads all
  {
    before.Keys == all && forall ev, key :: ev in all ==> On(ev.private_data, key) == On(before[ev], key)
  }

  /** Before anything is sent, the flags of all recipients to come are cleared. None of them was set. */
  method ClearFlags(routes: seq<Routed>, ghost all: set<Event>)
    requires forall k :: 0 <= k < |routes| ==> Within(routes[k], all) && Fresh(Snapshot(all), routes[k])
    modifies all
    ensures Unmoved(old(Snapshot(all)), all)
  {
    hide On, IsKey, Fresh, Within, Updated;
    for k := 0 to |routes|
      invariant forall ev, key :: ev in all ==> On(ev.private_data, key) == old(On(ev.private_data, key))
    {
      assert forall ev :: ev in routes[k].events ==> ev in all by {
        WithinMeans(routes[k], all);
      }
      label Before:
      SetFlags(routes[k], false);
      forall ev, key | ev in all
        ensures On(ev.private_data, key) == old(On(ev.private_data, key))
      {
        if ev in routes[k].events {
          UpdatedMeans(ev.private_data, old@Before(ev.private_data), routes[k], key, false);
        }
        if ev in routes[k].events && IsKey(routes[k].frm, routes[k].to, key) {
          FreshMeans(old(Snapshot(all)), routes[k], ev, key);
          assert old(Snapshot(all))[ev] == old(ev.private_data);
        } else if ev !in routes[k].events {
          assert ev.private_data == old@Before(ev.private_data);
        }
      }
    }
  }

  lemma UpdatedMeans(now: map<string, bool>, was: map<string, bool>, g: Routed, key: string, value: bool)
    requires Updated(now, was, true, g.frm, g.to, value)
    ensures On(now, key) == if IsKey(g.frm, g.to, key) then value else On(was, key)
  {
  }

  lemma WithinMeans(g: Routed, all: set<Event>)
    requires Within(g, all)
    ensures forall ev :: ev in g.events ==> ev in all
  {
  }

  lemma FreshMeans(flags: Flags, g: Routed, ev: Event, key: string)
    requires Fresh(flags, g) && ev in flags && SentBy(g, ev, key)
    ensures !On(flags[ev], key)
  {
    var j :| 0 <= j < |g.to| && key == Key(g.frm, g.to[j]);
    assert g.to[j] in g.to;
    assert !Marked(flags, ev, Key(g.frm, g.to[j]));
  }

  /** What is marked now is what was marked before and what was sent. */
  ghost predicate Accounts(before: Flags, all: set<Event>, sent: seq<Routed>)
    reads all
  {
    && before.Keys == all
    && forall ev, key :: ev in all ==> (On(ev.private_data, key) <==> On(before[ev], key) || Sent(sent, ev, key))
  }

  /** After a delivery its recipients are marked, event by event. */
  method MarkGroup(g: Routed, ghost all: set<Event>, ghost before: Flags, ghost sent: seq<Routed>)
    requires Within(g, all) && Accounts(before, all, sent)
    modifies all
    ensures Accounts(before, all, sent + [g])
  {
    hide On, IsKey, Sent, SentBy, Updated;
    SetFlags(g, true);
    forall ev, key | ev in all
      ensures On(ev.private_data, key) <==> On(before[ev], key) || Sent(sent + [g], ev, key)
    {
      SentMore(sent, g, ev, key);
      SentByMeans(g, ev, key);
      if ev in g.events {
        UpdatedMeans(ev.private_data, old(ev.private_data), g, key, true);
      } else {
        assert ev.private_data == old(ev.private_data);
      }
    }
  }

  /** What becomes of an attempt: the message goes out and everybody is marked; it does not go out; or it goes
      out, and an error ends the marking, after some events and some recipients of the next one. */
  datatype Fate = Through | Refused | Halted(events: nat, rcpts: nat)

  function Min(a: nat, b: nat): nat {
    if a < b then a else b
  }

  /** The marks of a group that are set when the marking ends early, as groups of their own. */
  function PartOf(g: Routed, e: nat, r: nat): seq<Routed> {
    if e < |g.events| then [g.(events := g.events[..e]), g.(to := g.to[..Min(r, |g.to|)], events := [g.events[e]])]
    else [g]
  }

  /** The marking goes through the events, and for each through the recipients: with the first events all are marked,
      and with the next one the first recipients. */
  lemma PartMeans(g: Routed, e: nat, r: nat, ev: Event, key: string)
    ensures Sent(PartOf(g, e, r), ev, key) <==>
            exists a, j :: 0 <= a < |g.events| && 0 <= j < |g.to| && (a < e || (a == e && j < r))
                           && g.events[a] == ev && Key(g.frm, g.to[j]) == key
  {
    var part := PartOf(g, e, r);
    if e < |g.events| {
      var first, second := part[0], part[1];
      assert Sent(part, ev, key) <==> SentBy(first, ev, key) || SentBy(second, ev, key);
      SentByAt(first, ev, key);
      SentByAt(second, ev, key);
      hide SentBy, Sent, Key;
      assert forall a :: 0 <= a < e ==> first.events[a] == g.events[a];
      assert forall j :: 0 <= j < Min(r, |g.to|) ==> second.to[j] == g.to[j];
    } else {
      assert part == [g] && part[0] == g;
      assert Sent(part, ev, key) <==> SentBy(g, ev, key);
      SentByAt(g, ev, key);
    }
  }

  lemma SentByAt(g: Routed, ev: Event, key: string)
    ensures SentBy(g, ev, key) <==>
            exists a, j :: 0 <= a < |g.events| && 0 <= j < |g.to| && g.events[a] == ev && Key(g.frm, g.to[j]) == key
  {
    hide Key;
    if SentBy(g, ev, key) {
      var a :| 0 <= a < |g.events| && g.events[a] == ev;
      var j :| 0 <= j < |g.to| && key == Key(g.frm, g.to[j]);
    }
  }

  lemma PartWithin(g: Routed, e: nat, r: nat, all: set<Event>)
    requires Within(g, all)
    ensures forall i :: 0 <= i < |PartOf(g, e, r)| ==> Within(PartOf(g, e, r)[i], all)
  {
  }

  method MarkPart(g: Routed, e: nat, r: nat, ghost all: set<Event>, ghost before: Flags, ghost sent: seq<Routed>)
    requires Within(g, all) && Accounts(before, all, sent)
    modifies all
    ensures Accounts(before, all, sent + PartOf(g, e, r))
  {
    hide Within, Accounts;
    PartWithin(g, e, r, all);
    if e < |g.events| {
      var first, second := g.(events := g.events[..e]), g.(to := g.to[..Min(r, |g.to|)], events := [g.events[e]]);
      assert PartOf(g, e, r) == [first, second] && PartOf(g, e, r)[0] == first && PartOf(g, e, r)[1] == second;
      MarkGroup(first, all, before, sent);
      MarkGroup(second, all, before, sent + [first]);
      assert sent + [first] + [second] == sent + [first, second];
    } else {
      MarkGroup(g, all, before, sent);
    }
  }

  // --- Calls -----------------------------------------------------------------

  /** A call: its tuples, the groups that it makes of each, the groups that it delivers and marks, and what it
      marks of one more when it ends in between. */
  datatype Call = Call(mails: seq<Mail>, router: Router, groups: seq<seq<Routed>>, sent: seq<Routed>, part: seq<Routed>)

  ghost predicate IsPart(part: seq<Routed>, routes: seq<Routed>) {
    part == [] || exists g, e: nat, r: nat :: g in routes && part == PartOf(g, e, r)
  }

  ghost predicate RoutesOk(flags: Flags, c: Call) {
    && |c.groups| == |c.mails|
    && forall i :: 0 <= i < |c.mails| ==>
         Groups(c.groups[i], c.mails[i], Pending(flags, c.mails[i], |c.mails[i].to|), c.router)
  }

  /** What a call does to the flags of all events. */
  ghost predicate IsCall(before: Flags, after: Flags, c: Call) {
    && RoutesOk(before, c)
    && AllEvents(c.mails) <= before.Keys == after.Keys
    && (forall i :: 0 <= i < |c.sent| ==> c.sent[i] in Flat(c.groups))
    && IsPart(c.part, Flat(c.groups))
    && Adds(before, after, c.sent + c.part)
  }

  /** What is marked after is what was marked before and what was sent. */
  ghost predicate Adds(before: Flags, after: Flags, sent: seq<Routed>) {
    && before.Keys == after.Keys
    && forall ev, key :: ev in before ==> (Marked(after, ev, key) <==> Marked(before, ev, key) || Sent(sent, ev, key))
  }

  /** Sending. `order` is the random order of the groups, by number; `fates` says what becomes of each attempt.
      False stands for the exception that ends the call at the first failure. `universe` is any set of events
      that holds those of the tuples. */
  method SendMail(mails: seq<Mail>, router: Router, order: seq<nat>, fates: seq<Fate>, testOnly: bool,
                  ghost universe: set<Event>)
    returns (ok: bool, ghost call: Call)
    requires AllEvents(mails) <= universe
    modifies AllEvents(mails)
    ensures call.mails == mails && call.router == router
    ensures IsCall(old(Snapshot(universe)), Snapshot(universe), call)
    ensures testOnly ==> ok && call.sent == call.part == []
    ensures !testOnly ==> var routes := Flat(call.groups);
                          var n := FirstFailure(order, fates, |routes|, 0);
                          && (ok <==> n == |order|)
                          && call.sent == Tried(routes, order, n) && call.part == PartAt(routes, order, fates, n)
  {
    ghost var all := AllEvents(mails);
    ghost var before, whole := Snapshot(all), Snapshot(universe);
    SnapshotParts(all, universe);
    hide Groups, Pending, Fresh, Within, On, IsKey, Sent, SentBy, Snapshot, Updated, Accounts, AllEvents, Flat, IsCall,
      IsPart, PartOf, FirstFailure, Tried, PartAt;
    var routes;
    ghost var groups;
    routes, groups := RouteTuples(mails, router);
    ClearFlags(routes, all);
    Untouched(before, all);
    ok, call := Attempts(routes, order, fates, testOnly, all, before, Call(mails, router, groups, [], []));
    AccountsAdds(before, all, call.sent + call.part);
    SnapshotParts(all, universe);
    CallWithin(routes, all, call);
    CallIsCall(before, Snapshot(all), whole, Snapshot(universe), call);
  }

  /** The loop over the groups. */
  method Attempts(routes: seq<Routed>, order: seq<nat>, fates: seq<Fate>, testOnly: bool,
                  ghost all: set<Event>, ghost before: Flags, ghost start: Call)
    returns (ok: bool, ghost call: Call)
    requires forall k :: 0 <= k < |routes| ==> Within(routes[k], all)
    requires start.sent == [] && start.part == [] && Accounts(before, all, [])
    modifies all
    ensures call == start.(sent := call.sent, part := call.part)
    ensures Accounts(before, all, call.sent + call.part) && IsPart(call.part, routes)
    ensures forall i :: 0 <= i < |call.sent| ==> call.sent[i] in routes
    ensures testOnly ==> ok && call.sent == call.part == []
    ensures !testOnly ==> var n := FirstFailure(order, fates, |routes|, 0);
                          && (ok <==> n == |order|)
                          && call.sent == Tried(routes, order, n) && call.part == PartAt(routes, order, fates, n)
  {
    hide Within, Accounts, PartOf;
    call := start;
    for n := 0 to |order|
      invariant call == start.(sent := call.sent) && (testOnly ==> call.sent == [])
      invariant !testOnly ==> call.sent == Tried(routes, order, n)
      invariant forall i :: 0 <= i < |call.sent| ==> call.sent[i] in routes
      invariant Accounts(before, all, call.sent)
      invariant FirstFailure(order, fates, |routes|, 0) == FirstFailure(order, fates, |routes|, n) || testOnly
    {
      if order[n] < |routes| {
        var g := routes[order[n]];
        if testOnly {
          assert call.sent + call.part == call.sent;
          return true, call;
        }
        match if n < |fates| then fates[n] else Refused {
          case Through =>
            MarkGroup(g, all, before, call.sent);
            call := call.(sent := call.sent + [g]);
          case Refused =>
            assert call.sent + call.part == call.sent;
            return false, call;
          case Halted(e, r) =>
            MarkPart(g, e, r, all, before, call.sent);
            call := call.(part := PartOf(g, e, r));
            return false, call;
        }
      }
    }
    ok := true;
    assert call.sent + call.part == call.sent;
  }

  /** The first attempt, from number n on, at one of `count` groups that does not go through; or the end. */
  function FirstFailure(order: seq<nat>, fates: seq<Fate>, count: nat, n: nat): (m: nat)
    requires n <= |order|
    ensures n <= m <= |order| && (m < |order| ==> order[m] < count && !GoesThrough(fates, m))
    ensures forall k :: n <= k < m && order[k] < count ==> GoesThrough(fates, k)
    decreases |order| - n
  {
    if n == |order| then n
    else if order[n] < count && !GoesThrough(fates, n) then n
    else FirstFailure(order, fates, count, n + 1)
  }

  predicate GoesThrough(fates: seq<Fate>, n: nat) {
    n < |fates| && fates[n].Through?
  }

  /** The groups of the first n attempts. */
  function Tried(routes: seq<Routed>, order: seq<nat>, n: nat): (sent: seq<Routed>)
    requires n <= |order|
    ensures forall i :: 0 <= i < |sent| ==> sent[i] in routes
    ensures forall k :: 0 <= k < n && order[k] < |routes| ==> routes[order[k]] in sent
  {
    if n == 0 then []
    else if order[n - 1] < |routes| then Tried(routes, order, n - 1) + [routes[order[n - 1]]]
    else Tried(routes, order, n - 1)
  }

  /** What is marked of the group of the attempt that fails. */
  function PartAt(routes: seq<Routed>, order: seq<nat>, fates: seq<Fate>, n: nat): seq<Routed> {
    if n < |order| && order[n] < |routes| && n < |fates| && fates[n].Halted?
    then PartOf(routes[order[n]], fates[n].events, fates[n].rcpts)
    else []
  }

  /** Without a failure everything is delivered. */
  lemma AllGoThrough(routes: seq<Routed>, order: seq<nat>, fates: seq<Fate>)
    requires forall n :: 0 <= n < |order| ==> GoesThrough(fates, n)
    requires forall k :: 0 <= k < |routes| ==> k in order
    ensures var n := FirstFailure(order, fates, |routes|, 0);
            n == |order| && forall g :: g in routes ==> g in Tried(routes, order, n)
  {
    hide Tried;
    forall g | g in routes
      ensures g in Tried(routes, order, |order|)
    {
      var k :| 0 <= k < |routes| && routes[k] == g;
      assert k in order;
      var n :| 0 <= n < |order| && order[n] == k;
      assert routes[order[n]] == g;
    }
  }

  lemma SentByMeans(g: Routed, ev: Event, key: string)
    ensures SentBy(g, ev, key) <==> ev in g.events && IsKey(g.frm, g.to, key)
  {
  }

  lemma Untouched(before: Flags, all: set<Event>)
    requires Unmoved(before, all)
    ensures Accounts(before, all, [])
  {
    hide On, Sent;
    NothingSent();
  }

  lemma NothingSent()
    ensures forall ev: Event, key: string :: !Sent([], ev, key)
  {
    hide SentBy;
  }

  lemma {:induction false} PendingSame(a: Flags, b: Flags, m: Mail, n: nat)
    requires n <= |m.to| && forall ev :: ev in m.events ==> ev in a && ev in b && a[ev] == b[ev]
    ensures Pending(a, m, n) == Pending(b, m, n)
  {
    if n == 0 {
    } else {
      PendingSame(a, b, m, n - 1);
      forall i | 0 <= i < |m.events|
        ensures Marked(a, m.events[i], Key(m.frm, m.to[n - 1])) == Marked(b, m.events[i], Key(m.frm, m.to[n - 1]))
      {
        assert m.events[i] in m.events;
      }
    }
  }

  lemma RoutesLift(a: Flags, b: Flags, c: Call)
    requires RoutesOk(a, c) && AllEvents(c.mails) <= a.Keys && AllEvents(c.mails) <= b.Keys
    requires forall ev :: ev in AllEvents(c.mails) ==> a[ev] == b[ev]
    ensures RoutesOk(b, c)
  {
    hide Pending, AllEvents, Groups;
    forall i | 0 <= i < |c.mails|
      ensures Pending(a, c.mails[i], |c.mails[i].to|) == Pending(b, c.mails[i], |c.mails[i].to|)
    {
      assert EventsOf(c.mails[i]) <= AllEvents(c.mails);
      assert forall ev :: ev in c.mails[i].events ==> ev in EventsOf(c.mails[i]);
      PendingSame(a, b, c.mails[i], |c.mails[i].to|);
    }
  }

  lemma AccountsAdds(before: Flags, all: set<Event>, sent: seq<Routed>)
    requires Accounts(before, all, sent)
    ensures Adds(before, Snapshot(all), sent)
  {
    hide On, Sent;
  }

  lemma SnapshotParts(all: set<Event>, universe: set<Event>)
    requires all <= universe
    ensures Snapshot(all).Keys == all && Snapshot(universe).Keys == universe
    ensures forall ev :: ev in all ==> Snapshot(all)[ev] == Snapshot(universe)[ev]
    ensures forall ev :: ev in universe ==> Snapshot(universe)[ev] == ev.private_data
  {
  }

  /** Only events of the call's own tuples are marked. */
  lemma CallWithin(routes: seq<Routed>, all: set<Event>, c: Call)
    requires forall k :: 0 <= k < |routes| ==> Within(routes[k], all)
    requires (forall i :: 0 <= i < |c.sent| ==> c.sent[i] in routes) && IsPart(c.part, routes)
    ensures forall ev, key :: Sent(c.sent + c.part, ev, key) ==> ev in all
  {
    if c.part != [] {
      var g, e: nat, r: nat :| g in routes && c.part == PartOf(g, e, r);
      PartWithin(g, e, r, all);
    }
  }

  /** What is true of the call's own events is true of all of them. */
  lemma CallIsCall(before: Flags, after: Flags, whole: Flags, wholeNow: Flags, c: Call)
    requires RoutesOk(before, c) && Adds(before, after, c.sent + c.part)
    requires AllEvents(c.mails) == before.Keys <= whole.Keys == wholeNow.Keys
    requires forall ev :: ev in before ==> before[ev] == whole[ev] && after[ev] == wholeNow[ev]
    requires forall ev :: ev in whole && ev !in before ==> whole[ev] == wholeNow[ev]
    requires forall ev, key :: Sent(c.sent + c.part, ev, key) ==> ev in before
    requires (forall i :: 0 <= i < |c.sent| ==> c.sent[i] in Flat(c.groups)) && IsPart(c.part, Flat(c.groups))
    ensures IsCall(whole, wholeNow, c)
  {
    hide Sent, Pending, Flat, IsPart, On, AllEvents;
    RoutesLift(before, whole, c);
    forall ev, key | ev in whole
      ensures Marked(wholeNow, ev, key) <==> Marked(whole, ev, key) || Sent(c.sent + c.part, ev, key)
    {
      if ev in before {
        assert Marked(after, ev, key) <==> Marked(before, ev, key) || Sent(c.sent + c.part, ev, key);
      }
    }
  }
}
