/** How flows of the relay live and die (`handle`, `continueSniff`, `routeFlow` and `reap` in
    `internal/quic/quic.go`): what each datagram leads to, and which flows a tick of the reaper drops. */
module RelayLife {
  import opened Wire
  import opened Initial
  import opened SniExtractor
  import opened Relay

  // ----- one datagram -----

  /** The eighth datagram without a name is the last one looked at. */
  lemma DoneAtEighth(c: Ciphers, ds: seq<bytes>)
    requires Lawful(c) && ds != []
    ensures LastAnswer(c, ds).done <==> LastAnswer(c, ds).sni != [] || |ds| >= 8
  {
    hide Lawful, ExtractInitial;
  }

  /** Nothing but the flow of `client`, and what `more` says of upstreams, differs. */
  ghost predicate OnlyClient(s: State, s': State, client: Client, more: seq<Upstream>) {
    && (forall k | k != client :: k in s'.flows <==> k in s.flows)
    && (forall k | k != client && k in s.flows :: s'.flows[k] == s.flows[k])
    && s'.upstreams == s.upstreams + more
  }

  /** With a name found, a flow to a new upstream that gets everything, or no flow when dialling fails;
      without, a flow that waits on, or none after the eighth datagram. */
  ghost predicate LeadsTo(s: State, s': State, client: Client, now: int, dials: bool, got: seq<bytes>,
                          name: bytes, fed: Extractor) {
    if name != [] && dials then
      && OnlyClient(s, s', client, [Upstream(client, name, got, true)])
      && client in s'.flows && s'.flows[client] == Routed(|s.upstreams|, now)
    else if name != [] || |got| >= 8 then OnlyClient(s, s', client, []) && client !in s'.flows
    else
      && OnlyClient(s, s', client, []) && client in s'.flows
      && s'.flows[client] == Sniffing(fed, got, now)
  }

  lemma SniffLeads(c: Ciphers, s: State, client: Client, sniffer: Extractor, pending: seq<bytes>, data: bytes,
                   now: int, dials: bool)
    requires Lawful(c)
    requires var answer := FeedStep(c, sniffer, data).1; answer.done <==> answer.sni != [] || |pending| + 1 >= 8
    ensures LeadsTo(s, SniffStep(c, s, client, sniffer, pending, data, now, dials), client, now, dials,
                    pending + [data], FeedStep(c, sniffer, data).1.sni, FeedStep(c, sniffer, data).0)
  {
    hide Lawful, FeedStep;
    assert s.upstreams + [] == s.upstreams;
  }

  /** What a datagram leads to when its client's flow, if it has one, has no upstream yet and has received
      `got`. */
  lemma UnroutedDatagram(c: Ciphers, s: State, client: Client, data: bytes, now: int, dials: bool, got: seq<bytes>)
    requires Lawful(c) && Sound(s) && GotBefore(c, s, client, got)
    requires client in s.flows ==> s.flows[client].Sniffing?
    ensures LeadsTo(s, ReceiveStep(c, s, client, data, now, dials), client, now, dials, got + [data],
                    LastAnswer(c, got + [data]).sni, FedWith(c, got + [data]))
  {
    hide Lawful, FeedStep, FedWith, LastAnswer, LeadsTo, SniffStep;
    NothingFed(c);
    FedOneMore(c, got, data);
    DoneAtEighth(c, got + [data]);
    SniffLeads(c, s, client, FedWith(c, got), got, data, now, dials);
  }

  /** A datagram of a routed flow is written to its upstream, after what was, and nowhere else. */
  lemma RoutedDatagram(c: Ciphers, s: State, client: Client, data: bytes, now: int, dials: bool)
    requires Lawful(c) && Sound(s) && client in s.flows && s.flows[client].Routed?
    ensures
      var s' := ReceiveStep(c, s, client, data, now, dials);
      var u := s.flows[client].upstream;
      && s'.flows == s.flows[client := Routed(u, now)] && |s'.upstreams| == |s.upstreams|
      && s'.upstreams[u] == s.upstreams[u].(written := s.upstreams[u].written + [data])
      && forall v | 0 <= v < |s.upstreams| && v != u :: s'.upstreams[v] == s.upstreams[v]
  {
    hide Lawful, FeedStep;
  }

  // ----- when a client was last heard of -----

  /** A datagram of the client, or a reply from an upstream dialled for it. */
  predicate Hears(s: State, e: Event, client: Client) {
    (e.Receive? && e.client == client)
    || (e.OriginReply? && e.upstream < |s.upstreams| && s.upstreams[e.upstream].client == client)
  }

  /** The time of the last such event of a run. */
  function LastHeard(events: seq<Event>, states: seq<State>, client: Client): Option<int>
    requires |events| <= |states|
  {
    if events == [] then None else
    var n := |events| - 1;
    if Hears(states[n], events[n], client) then Some(events[n].now) else LastHeard(events[..n], states, client)
  }

  lemma StepKeepsTime(c: Ciphers, s: State, e: Event, client: Client)
    requires Lawful(c) && Owned(s) && Sound(s) && Enabled(s, e) && client in Step(c, s, e).flows
    ensures if Hears(s, e, client) then Step(c, s, e).flows[client].last == e.now
            else client in s.flows && Step(c, s, e).flows[client].last == s.flows[client].last
  {
    hide Lawful, FeedStep, FedWith, LastAnswer;
  }

  lemma {:induction false} HeardPrefix(events: seq<Event>, states: seq<State>, client: Client, m: nat)
    requires |events| <= m <= |states|
    ensures LastHeard(events, states[..m], client) == LastHeard(events, states, client)
  {
    if events != [] {
      HeardPrefix(events[..|events| - 1], states, client, m);
    }
  }

  /** In every run a flow's clock shows when its client was last heard of. */
  lemma {:induction false} FlowShowsLastHeard(c: Ciphers, events: seq<Event>, states: seq<State>, client: Client)
    requires Lawful(c) && IsRun(c, events, states) && client in states[|events|].flows
    ensures LastHeard(events, states, client) == Some(states[|events|].flows[client].last)
    decreases |events|
  {
    hide Lawful, Step, Owned, Hears;
    if events != [] {
      var n := |events| - 1;
      RunPrefix(c, events, states, n);
      RunIsOwned(c, events[..n], states[..n + 1]);
      StepKeepsTime(c, states[n], events[n], client);
      if !Hears(states[n], events[n], client) {
        FlowShowsLastHeard(c, events[..n], states[..n + 1], client);
        HeardPrefix(events[..n], states, client, n + 1);
      }
    }
  }

  /** In every run, a tick of the reaper leaves a client its flow exactly when the client was last heard of
      at most 120 seconds before, and leaves such flows as they are. */
  lemma ReapedExactly(c: Ciphers, events: seq<Event>, states: seq<State>, now: int, client: Client)
    requires Lawful(c) && events != [] && IsRun(c, events, states) && events[|events| - 1] == ReaperTick(now)
    ensures
      var n := |events| - 1;
      var heard := LastHeard(events[..n], states, client);
      && (client in states[n].flows ==> heard.Some?)
      && (client in states[n + 1].flows <==> client in states[n].flows && now - heard.value <= 120)
      && (client in states[n + 1].flows ==> states[n + 1].flows[client] == states[n].flows[client])
  {
    var n := |events| - 1;
    TickKeeps(c, events, states, now, client);
    hide Lawful, Step, Owned, IsRun;
    RunPrefix(c, events, states, n);
    if client in states[n].flows {
      FlowShowsLastHeard(c, events[..n], states[..n + 1], client);
      HeardPrefix(events[..n], states, client, n + 1);
    }
  }

  lemma TickKeeps(c: Ciphers, events: seq<Event>, states: seq<State>, now: int, client: Client)
    requires Lawful(c) && events != [] && IsRun(c, events, states) && events[|events| - 1] == ReaperTick(now)
    ensures
      var n := |events| - 1;
      && (client in states[n + 1].flows <==> client in states[n].flows && now - states[n].flows[client].last <= 120)
      && (client in states[n + 1].flows ==> states[n + 1].flows[client] == states[n].flows[client])
  {
    hide Lawful;
    RunPrefix(c, events, states, |events| - 1);
  }

  /** A tick closes exactly the upstreams of the flows it drops, and changes nothing else about any. */
  lemma ReapClosesExactly(s: State, now: int, u: nat)
    requires Owned(s) && Sound(s) && u < |s.upstreams|
    ensures
      var s' := ReapStep(s, now);
      var k := s.upstreams[u].client;
      && |s'.upstreams| == |s.upstreams| && s'.upstreams[u] == s.upstreams[u].(open := s'.upstreams[u].open)
      && (s'.upstreams[u].open <==>
            s.upstreams[u].open
            && !(k in s.flows && s.flows[k].Routed? && s.flows[k].upstream == u && k !in s'.flows))
  {
    var k := s.upstreams[u].client;
    if ReapedBy(s.flows, s.flows.Keys, u, now) {
      var x :| x in s.flows && s.flows[x].Routed? && s.flows[x].upstream == u && Expired(s.flows[x], now);
      assert x == k;
    }
  }
}
