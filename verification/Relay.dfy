/** `PassthroughRelay` (`internal/quic/quic.go`): QUIC is not terminated; each client's datagrams
    are held until the server name is known and then relayed to its origin.

    The relay is a machine whose steps are: a datagram arrives, the reaper ticks, the pump of an
    upstream relays a reply, and the pump of an upstream ends. Time, and whether resolving and
    dialling an origin succeeds, are inputs of a step. A write is what the relay hands to a socket;
    what the network does with it is not its concern. */
module Relay {
  import opened Wire
  import opened ClientHello
  import opened Initial
  import opened SniExtractor

  type Client = string

  const FLOW_IDLE_TIMEOUT := 120  // seconds

  datatype Flow =
    | Sniffing(sniffer: Extractor, pending: seq<bytes>, last: int)
    | Routed(upstream: nat, last: int)

  /** A dialled origin: for whom, under which name, everything written to it, and whether the
      relay still holds it open. */
  datatype Upstream = Upstream(client: Client, name: bytes, written: seq<bytes>, open: bool)

  /** Upstreams are numbered in the order they were dialled and never forgotten, so that what was
      written to each can be spoken of after it is closed. */
  datatype State = State(flows: map<Client, Flow>, upstreams: seq<Upstream>)

  const Idle := State(map[], [])

  // ----- the steps as functions -----

  function Touch(f: Flow, now: int): Flow {
    f.(last := now)
  }

  function RouteStep(s: State, client: Client, name: bytes, pending: seq<bytes>, now: int, dials: bool): State {
    if !dials then s
    else State(s.flows[client := Routed(|s.upstreams|, now)],
               s.upstreams + [Upstream(client, name, pending, true)])
  }

  function Remove(s: State, client: Client): State {
    s.(flows := s.flows - {client})
  }

  function WriteTo(s: State, u: nat, data: bytes): State
    requires u < |s.upstreams|
  {
    var up := s.upstreams[u];
    s.(upstreams := s.upstreams[u := up.(written := up.written + [data])])
  }

  /** A datagram of a client whose name is not known yet; `pending` are those before it. */
  function SniffStep(c: Ciphers, s: State, client: Client, sniffer: Extractor, pending: seq<bytes>,
                     data: bytes, now: int, dials: bool): State
    requires Lawful(c)
  {
    var (fed, answer) := FeedStep(c, sniffer, data);
    if answer.sni != [] then RouteStep(Remove(s, client), client, answer.sni, pending + [data], now, dials)
    else if answer.done then Remove(s, client)
    else s.(flows := s.flows[client := Sniffing(fed, pending + [data], now)])
  }

  predicate Sound(s: State) {
    forall k | k in s.flows && s.flows[k].Routed? :: s.flows[k].upstream < |s.upstreams|
  }

  function ReceiveStep(c: Ciphers, s: State, client: Client, data: bytes, now: int, dials: bool): State
    requires Lawful(c) && Sound(s)
  {
    if client !in s.flows then SniffStep(c, s, client, Fresh, [], data, now, dials) else
    match s.flows[client]
    case Routed(u, _) => WriteTo(s.(flows := s.flows[client := Routed(u, now)]), u, data)
    case Sniffing(sniffer, pending, _) => SniffStep(c, s, client, sniffer, pending, data, now, dials)
  }

  predicate Expired(f: Flow, now: int) {
    now - f.last > FLOW_IDLE_TIMEOUT
  }

  /** The upstreams whose flows a reaper tick drops are closed. */
  function ReapStep(s: State, now: int): State
    requires Sound(s)
  {
    State(map k | k in s.flows && !Expired(s.flows[k], now) :: s.flows[k],
          seq(|s.upstreams|, u requires 0 <= u < |s.upstreams| =>
            CloseIf(s.upstreams[u], ReapedBy(s.flows, s.flows.Keys, u, now))))
  }

  function CloseIf(up: Upstream, close: bool): Upstream {
    if close then up.(open := false) else up
  }

  /** One of the flows `keys` is routed to `u` and idle for too long. */
  predicate ReapedBy(flows: map<Client, Flow>, keys: set<Client>, u: nat, now: int)
    requires keys <= flows.Keys
  {
    exists k | k in keys :: flows[k].Routed? && flows[k].upstream == u && Expired(flows[k], now)
  }

  /** A reply keeps whatever flow its client has now from being reaped. */
  function ReplyStep(s: State, u: nat, now: int): State
    requires u < |s.upstreams|
  {
    var k := s.upstreams[u].client;
    if k in s.flows then s.(flows := s.flows[k := Touch(s.flows[k], now)]) else s
  }

  /** When a pump ends, whatever flow its client has now is dropped, and the socket closed. */
  function PumpEndStep(s: State, u: nat): State
    requires u < |s.upstreams|
  {
    State(s.flows - {s.upstreams[u].client}, s.upstreams[u := s.upstreams[u].(open := false)])
  }

  // ----- the relay as it runs -----

  class PassthroughRelay {
    var flows: map<Client, Flow>
    var upstreams: seq<Upstream>

    ghost function Value(): State
      reads this
    {
      State(flows, upstreams)
    }

    constructor ()
      ensures Value() == Idle
    {
      flows, upstreams := map[], [];
    }

    method Handle(c: Ciphers, client: Client, data: bytes, now: int, dials: bool)
      requires Lawful(c) && Sound(Value())
      modifies this
      ensures Value() == ReceiveStep(c, old(Value()), client, data, now, dials)
    {
      hide Lawful, FeedStep;
      if client in flows {
        var flow := Touch(flows[client], now);
        flows := flows[client := flow];
        if flow.Routed? {
          Write(flow.upstream, data);
        } else {
          ContinueSniff(c, client, flow, data, now, dials);
          assert old(flows)[client := flow] - {client} == old(flows) - {client};
        }
        return;
      }
      var sniffer := new SNIExtractor();
      var sni, done := sniffer.Feed(c, data);
      assert [] + [data] == [data];
      if sni == [] {
        assert flows - {client} == flows;
        if done {
          return;
        }
        flows := flows[client := Sniffing(Extractor(sniffer.chunks, sniffer.packets), [data], now)];
        return;
      }
      assert flows - {client} == flows;
      RouteFlow(client, sni, [data], now, dials);
    }

    method ContinueSniff(c: Ciphers, client: Client, flow: Flow, data: bytes, now: int, dials: bool)
      requires Lawful(c) && flow.Sniffing? && client in flows && flows[client] == flow && flow.last == now
      modifies this
      ensures Value() == SniffStep(c, old(Value()), client, flow.sniffer, flow.pending, data, now, dials)
    {
      hide Lawful, FeedStep;
      var pending := flow.pending + [data];
      var (fed, answer) := FeedStep(c, flow.sniffer, data);
      flows := flows[client := Sniffing(fed, pending, now)];
      assert flows - {client} == old(flows) - {client};
      if answer.sni == [] {
        if answer.done {
          flows := flows - {client};
        }
        return;
      }
      flows := flows - {client};
      RouteFlow(client, answer.sni, pending, now, dials);
    }

    /** Dials the origin and replays the buffered datagrams to it in order. */
    method RouteFlow(client: Client, name: bytes, pending: seq<bytes>, now: int, dials: bool)
      modifies this
      ensures Value() == RouteStep(old(Value()), client, name, pending, now, dials)
    {
      if !dials {
        return;
      }
      var u := |upstreams|;
      flows := flows[client := Routed(u, now)];
      upstreams := upstreams + [Upstream(client, name, [], true)];
      for i := 0 to |pending|
        invariant flows == old(flows)[client := Routed(u, now)]
        invariant upstreams == old(upstreams) + [Upstream(client, name, pending[..i], true)]
      {
        Write(u, pending[i]);
        assert pending[..i + 1] == pending[..i] + [pending[i]];
      }
      assert pending[..|pending|] == pending;
    }

    method Write(u: nat, data: bytes)
      requires u < |upstreams|
      modifies this`upstreams
      ensures Value() == WriteTo(old(Value()), u, data)
    {
      upstreams := upstreams[u := upstreams[u].(written := upstreams[u].written + [data])];
    }

    /** Visits the flows in any order, dropping those idle for too long. */
    method Reap(now: int)
      requires Sound(Value())
      modifies this
      ensures Value() == ReapStep(old(Value()), now)
    {
      var todo := flows.Keys;
      while todo != {}
        invariant todo <= flows.Keys <= old(flows).Keys
        invariant forall k | k in old(flows) :: k in flows <==> k in todo || !Expired(old(flows)[k], now)
        invariant forall k | k in flows :: flows[k] == old(flows)[k]
        invariant |upstreams| == |old(upstreams)|
        invariant forall u | 0 <= u < |upstreams| ::
          upstreams[u] == CloseIf(old(upstreams)[u], ReapedBy(old(flows), old(flows).Keys - todo, u, now))
        decreases |todo|
      {
        var k :| k in todo;
        var f := flows[k];
        ghost var seen := old(flows).Keys - todo;
        todo := todo - {k};
        assert old(flows).Keys - todo == seen + {k};
        if Expired(f, now) {
          if f.Routed? {
            upstreams := upstreams[f.upstream := upstreams[f.upstream].(open := false)];
          }
          flows := flows - {k};
        }
      }
      assert old(flows).Keys - todo == old(flows).Keys;
    }

    method Reply(u: nat, now: int)
      requires u < |upstreams|
      modifies this
      ensures Value() == ReplyStep(old(Value()), u, now)
    {
      var k := upstreams[u].client;
      if k in flows {
        flows := flows[k := Touch(flows[k], now)];
      }
    }

    method PumpEnd(u: nat)
      requires u < |upstreams|
      modifies this
      ensures Value() == PumpEndStep(old(Value()), u)
    {
      flows := flows - {upstreams[u].client};
      upstreams := upstreams[u := upstreams[u].(open := false)];
    }
  }

  // ----- runs -----

  datatype Event =
    | Receive(client: Client, data: bytes, now: int, dials: bool)
    | ReaperTick(now: int)
    | OriginReply(upstream: nat, now: int)
    | PumpEnds(upstream: nat)

  /** Pump events come from pumps that exist. */
  predicate Enabled(s: State, e: Event) {
    (e.OriginReply? || e.PumpEnds?) ==> e.upstream < |s.upstreams|
  }

  function Step(c: Ciphers, s: State, e: Event): State
    requires Lawful(c) && Sound(s) && Enabled(s, e)
  {
    match e
    case Receive(client, data, now, dials) => ReceiveStep(c, s, client, data, now, dials)
    case ReaperTick(now) => ReapStep(s, now)
    case OriginReply(u, now) => ReplyStep(s, u, now)
    case PumpEnds(u) => PumpEndStep(s, u)
  }

  /** `states` is the history of a run: it starts idle and each event leads to the next. */
  ghost predicate IsRun(c: Ciphers, events: seq<Event>, states: seq<State>)
    requires Lawful(c)
  {
    && |states| == |events| + 1
    && states[0] == Idle
    && forall i | 0 <= i < |events| ::
      Sound(states[i]) && Enabled(states[i], events[i]) && states[i + 1] == Step(c, states[i], events[i])
  }

  /** The datagrams received from `client`, in order. */
  function From(events: seq<Event>, client: Client): seq<bytes> {
    if events == [] then []
    else
      var e := events[|events| - 1];
      From(events[..|events| - 1], client) + if e.Receive? && e.client == client then [e.data] else []
  }

  /** The flow of `client` in the last state began with event `i`: the relay had no flow for the
      client then, and has had one ever since. */
  ghost predicate BeganAt(events: seq<Event>, states: seq<State>, client: Client, i: nat)
    requires |states| == |events| + 1
  {
    && i < |events| && events[i].Receive? && events[i].client == client
    && client !in states[i].flows
    && forall j | i < j < |states| :: client in states[j].flows
  }

  /** What the relay knows of a live flow whose client has sent `got` since it began. */
  ghost predicate FlowHolds(c: Ciphers, s: State, client: Client, got: seq<bytes>)
    requires Lawful(c) && client in s.flows
  {
    match s.flows[client]
    case Sniffing(sniffer, pending, _) =>
      pending == got && 0 < |pending| < GIVE_UP_AFTER && sniffer == FedWith(c, pending)
    case Routed(u, _) =>
      u < |s.upstreams| && s.upstreams[u].client == client && s.upstreams[u].written == got
  }

  ghost predicate Conserves(c: Ciphers, events: seq<Event>, states: seq<State>, client: Client)
    requires Lawful(c) && |states| == |events| + 1
  {
    var s := states[|events|];
    client in s.flows ==>
      exists i: nat :: BeganAt(events, states, client, i) && FlowHolds(c, s, client, From(events[i..], client))
  }

  /** Some datagram of `up` made the extractor answer its name. */
  ghost predicate NamedBy(c: Ciphers, up: Upstream, k: nat)
    requires Lawful(c)
  {
    0 < k <= GIVE_UP_AFTER && k <= |up.written| && up.name != [] && LastAnswer(c, up.written[..k]).sni == up.name
  }

  /** What was written to an upstream is one unbroken stretch of its client's datagrams, starting
      with one that found no flow. */
  ghost predicate WroteStretch(events: seq<Event>, states: seq<State>, up: Upstream, i: nat, j: nat)
    requires |states| == |events| + 1
  {
    i < j <= |events| && up.client !in states[i].flows && up.written == From(events[i..j], up.client)
  }

  // ----- what one step does to a flow and to an upstream -----

  /** Every routed flow writes to an upstream that was dialled for its client and is open. */
  ghost predicate Owned(s: State) {
    forall k | k in s.flows && s.flows[k].Routed? ::
      && s.flows[k].upstream < |s.upstreams|
      && s.upstreams[s.flows[k].upstream].client == k
      && s.upstreams[s.flows[k].upstream].open
  }

  function Extra(e: Event, client: Client): seq<bytes> {
    if e.Receive? && e.client == client then [e.data] else []
  }

  lemma StepKeepsOwned(c: Ciphers, s: State, e: Event)
    requires Lawful(c) && Owned(s) && Sound(s) && Enabled(s, e)
    ensures Owned(Step(c, s, e)) && Sound(Step(c, s, e))
  {
    hide Lawful, FeedStep, SniffStep;
    match e
    case Receive(client, data, now, dials) =>
      if client !in s.flows {
        SniffKeepsOwned(c, s, client, Fresh, [], data, now, dials);
      } else if s.flows[client].Sniffing? {
        SniffKeepsOwned(c, s, client, s.flows[client].sniffer, s.flows[client].pending, data, now, dials);
      }
    case ReaperTick(now) =>
    case OriginReply(u, now) =>
    case PumpEnds(u) =>
  }

  lemma SniffKeepsOwned(c: Ciphers, s: State, client: Client, sniffer: Extractor, pending: seq<bytes>,
                        data: bytes, now: int, dials: bool)
    requires Lawful(c) && Owned(s)
    ensures Owned(SniffStep(c, s, client, sniffer, pending, data, now, dials))
  {
    hide Lawful, FeedStep;
    var (fed, answer) := FeedStep(c, sniffer, data);
    var removed := Remove(s, client);
    assert Owned(removed);
    assert Owned(RouteStep(removed, client, answer.sni, pending + [data], now, dials));
  }

  /** One more datagram fed; the extractor only asks for more before the eighth. */
  lemma FedOneMore(c: Ciphers, pending: seq<bytes>, data: bytes)
    requires Lawful(c)
    ensures FeedStep(c, FedWith(c, pending), data).0 == FedWith(c, pending + [data])
    ensures FeedStep(c, FedWith(c, pending), data).1 == LastAnswer(c, pending + [data])
    ensures !LastAnswer(c, pending + [data]).done ==> |pending| + 1 < GIVE_UP_AFTER
  {
    hide Lawful, ParseSNI, ExtractInitial;
    var ds := pending + [data];
    assert ds[..|ds| - 1] == pending;
  }

  /** Sniffing for one client leaves the other flows and every dialled upstream as they were. */
  lemma SniffLeavesOthers(c: Ciphers, s: State, client: Client, sniffer: Extractor, pending: seq<bytes>,
                          data: bytes, now: int, dials: bool)
    requires Lawful(c)
    ensures
      var s' := SniffStep(c, s, client, sniffer, pending, data, now, dials);
      && (forall k | k != client :: k in s'.flows <==> k in s.flows)
      && (forall k | k != client && k in s.flows :: s'.flows[k] == s.flows[k])
      && |s.upstreams| <= |s'.upstreams| <= |s.upstreams| + 1
      && (forall u | 0 <= u < |s.upstreams| :: s'.upstreams[u] == s.upstreams[u])
  {
    hide Lawful, FeedStep;
  }

  /** A datagram of a client whose flow has received `pending` before it. */
  lemma SniffHolds(c: Ciphers, s: State, client: Client, pending: seq<bytes>, data: bytes, now: int, dials: bool)
    requires Lawful(c)
    ensures
      var s' := SniffStep(c, s, client, FedWith(c, pending), pending, data, now, dials);
      && (client in s'.flows ==> FlowHolds(c, s', client, pending + [data]))
      && (|s.upstreams| < |s'.upstreams| ==>
            var up := s'.upstreams[|s.upstreams|];
            up.client == client && up.written == pending + [data] && client in s'.flows
            && up.name != [] && up.name == LastAnswer(c, pending + [data]).sni)
  {
    hide Lawful, FeedStep, FedWith, LastAnswer;
    FedOneMore(c, pending, data);
  }

  lemma NothingFed(c: Ciphers)
    requires Lawful(c)
    ensures FedWith(c, []) == Fresh
  {
    hide Lawful;
  }

  /** Only a datagram of the client itself starts a flow, and the flow starts with that datagram. */
  lemma StepStartsFlow(c: Ciphers, s: State, e: Event, client: Client)
    requires Lawful(c) && Owned(s) && Sound(s) && Enabled(s, e)
    requires client !in s.flows && client in Step(c, s, e).flows
    ensures e.Receive? && e.client == client && FlowHolds(c, Step(c, s, e), client, [e.data])
  {
    hide Lawful, SniffStep, FedWith, LastAnswer;
    match e
    case Receive(k, data, now, dials) =>
      if k in s.flows && s.flows[k].Sniffing? {
        SniffLeavesOthers(c, s, k, s.flows[k].sniffer, s.flows[k].pending, data, now, dials);
        assert false;
      }
      NothingFed(c);
      SniffLeavesOthers(c, s, k, Fresh, [], data, now, dials);
      SniffHolds(c, s, k, [], data, now, dials);
      assert [] + [data] == [data];
    case _ =>
      assert false;
  }

  /** A flow that survives a step has exactly its client's datagram of that step added. */
  lemma StepKeepsFlow(c: Ciphers, s: State, e: Event, client: Client, got: seq<bytes>)
    requires Lawful(c) && Owned(s) && Sound(s) && Enabled(s, e)
    requires client in s.flows && FlowHolds(c, s, client, got)
    requires client in Step(c, s, e).flows
    ensures FlowHolds(c, Step(c, s, e), client, got + Extra(e, client))
  {
    hide Lawful, SniffStep, FedWith, LastAnswer;
    assert Extra(e, client) == [] ==> got + Extra(e, client) == got;
    if e.Receive? {
      if e.client !in s.flows {
        SniffLeavesOthers(c, s, e.client, Fresh, [], e.data, e.now, e.dials);
      } else if s.flows[e.client].Sniffing? {
        var f := s.flows[e.client];
        SniffLeavesOthers(c, s, e.client, f.sniffer, f.pending, e.data, e.now, e.dials);
        SniffHolds(c, s, client, got, e.data, e.now, e.dials);
      }
    }
  }

  /** An old upstream keeps its client and name, and gains only datagrams its own flow received. */
  lemma StepKeepsUpstream(c: Ciphers, s: State, e: Event, u: nat)
    requires Lawful(c) && Owned(s) && Sound(s) && Enabled(s, e) && u < |s.upstreams|
    ensures
      var s' := Step(c, s, e);
      && u < |s'.upstreams|
      && s'.upstreams[u].client == s.upstreams[u].client && s'.upstreams[u].name == s.upstreams[u].name
      && (s'.upstreams[u].written == s.upstreams[u].written ||
          (e.Receive? && e.client == s.upstreams[u].client && e.client in s.flows
           && s.flows[e.client].Routed? && s.flows[e.client].upstream == u
           && s'.upstreams[u].written == s.upstreams[u].written + [e.data]))
  {
    hide Lawful, FeedStep;
  }

  lemma OnlyReceiveDials(c: Ciphers, s: State, e: Event)
    requires Lawful(c) && Sound(s) && Enabled(s, e)
    requires |s.upstreams| < |Step(c, s, e).upstreams|
    ensures e.Receive?
  {
    hide Lawful, FeedStep;
  }

  /** A new upstream is dialled for the client whose datagram revealed the name, and gets all its
      flow has received. */
  lemma StepDials(c: Ciphers, s: State, e: Event, u: nat, got: seq<bytes>)
    requires Lawful(c) && Owned(s) && Sound(s) && Enabled(s, e)
    requires |s.upstreams| <= u < |Step(c, s, e).upstreams|
    requires e.Receive? && GotBefore(c, s, e.client, got)
    ensures
      var up := Step(c, s, e).upstreams[u];
      && up.client == e.client && up.written == got + [e.data]
      && NamedBy(c, up, |up.written|)
      && e.client in Step(c, s, e).flows
  {
    hide Lawful, SniffStep, FedWith, LastAnswer, Step, GotBefore, NamedBy;
    DialsWhileSniffing(c, s, e, got);
    SniffLeavesOthers(c, s, e.client, FedWith(c, got), got, e.data, e.now, e.dials);
    SniffHolds(c, s, e.client, got, e.data, e.now, e.dials);
    var up := Step(c, s, e).upstreams[u];
    NamedByAll(c, up, got, e.data);
  }

  /** Only the datagram of a flow without an upstream dials one. */
  lemma DialsWhileSniffing(c: Ciphers, s: State, e: Event, got: seq<bytes>)
    requires Lawful(c) && Sound(s) && Enabled(s, e)
    requires |s.upstreams| < |Step(c, s, e).upstreams|
    requires e.Receive? && GotBefore(c, s, e.client, got)
    ensures |got| < GIVE_UP_AFTER
    ensures Step(c, s, e) == SniffStep(c, s, e.client, FedWith(c, got), got, e.data, e.now, e.dials)
  {
    hide Lawful, SniffStep, FedWith;
    NothingFed(c);
  }

  lemma NamedByAll(c: Ciphers, up: Upstream, got: seq<bytes>, data: bytes)
    requires Lawful(c) && up.written == got + [data] && |got| < GIVE_UP_AFTER
    requires up.name != [] && up.name == LastAnswer(c, got + [data]).sni
    ensures NamedBy(c, up, |up.written|)
  {
    hide Lawful, LastAnswer;
    assert up.written[..|up.written|] == up.written;
  }

  // ----- what the end of a pump drops -----

  /** `v` is open and no flow is routed to it: it still relays replies, but no datagram reaches it. */
  ghost predicate Stranded(s: State, v: nat) {
    v < |s.upstreams| && s.upstreams[v].open
    && forall k | k in s.flows :: !(s.flows[k].Routed? && s.flows[k].upstream == v)
  }

  /** The end of a pump drops a flow other than its own exactly when its client has one by then; and it
      strands an upstream that had its flow exactly when that is another upstream of the same client. */
  lemma PumpEndDrops(s: State, u: nat, v: nat)
    requires Owned(s) && u < |s.upstreams|
    ensures
      var s', client := PumpEndStep(s, u), s.upstreams[u].client;
      && (forall k :: k in s.flows && k !in s'.flows <==> k == client && k in s.flows)
      && ((exists k :: k in s.flows && k !in s'.flows && s.flows[k] != Routed(u, s.flows[k].last)) <==>
            client in s.flows && (s.flows[client].Sniffing? || s.flows[client].upstream != u))
      && (v < |s.upstreams| && s.upstreams[v].open && !Stranded(s, v) ==>
            (Stranded(s', v) <==> v != u && s.upstreams[v].client == client))
  {
  }

  /** Such an end is reached: a flow is reaped, the client's next datagram dials again, and only then does
      the pump of the closed upstream notice. `data` is any datagram that reveals a name at once. */
  lemma OldPumpStrandsNewFlow(c: Ciphers, client: Client, data: bytes)
    returns (events: seq<Event>, states: seq<State>)
    requires Lawful(c) && LastAnswer(c, [data]).sni != []
    ensures |events| == 4 && |states| == 5 && events[3] == PumpEnds(0)
    ensures client in states[3].flows && client !in states[4].flows
    ensures !Stranded(states[3], 1) && Stranded(states[4], 1)
    ensures IsRun(c, events, states)
  {
    hide Lawful, FeedStep, FedWith, LastAnswer;
    var name := LastAnswer(c, [data]).sni;
    events := [Receive(client, data, 0, true), ReaperTick(200), Receive(client, data, 201, true), PumpEnds(0)];
    var up := Upstream(client, name, [data], true);
    var s1 := State(map[client := Routed(0, 0)], [up]);
    var s2 := State(map[], [up.(open := false)]);
    var s3 := State(map[client := Routed(1, 201)], [up.(open := false), up]);
    var s4 := State(map[], [up.(open := false), up]);
    states := [Idle, s1, s2, s3, s4];
    FirstDatagramDials(c, Idle, client, data, 0);
    assert ReapStep(s1, 200) == s2 by {
      assert s1.flows[client].upstream == 0 && Expired(s1.flows[client], 200);
      assert ReapedBy(s1.flows, s1.flows.Keys, 0, 200);
    }
    FirstDatagramDials(c, s2, client, data, 201);
    assert s2.upstreams + [up] == s3.upstreams;
  }

  lemma FirstDatagramDials(c: Ciphers, s: State, client: Client, data: bytes, now: int)
    requires Lawful(c) && Sound(s) && client !in s.flows && LastAnswer(c, [data]).sni != []
    ensures ReceiveStep(c, s, client, data, now, true) ==
            State(s.flows[client := Routed(|s.upstreams|, now)],
                  s.upstreams + [Upstream(client, LastAnswer(c, [data]).sni, [data], true)])
  {
    hide Lawful, FeedStep, FedWith, LastAnswer;
    NothingFed(c);
    FedOneMore(c, [], data);
    assert [] + [data] == [data];
    assert s.flows - {client} == s.flows;
  }

  // ----- conservation over every run -----

  lemma FromSnoc(events: seq<Event>, i: nat, client: Client)
    requires i < |events|
    ensures From(events[i..], client) ==
            From(events[..|events| - 1][i..], client) + Extra(events[|events| - 1], client)
  {
    var tail := events[i..];
    assert tail[..|tail| - 1] == events[..|events| - 1][i..];
    assert tail[|tail| - 1] == events[|events| - 1];
  }

  lemma RunPrefix(c: Ciphers, events: seq<Event>, states: seq<State>, n: nat)
    requires Lawful(c) && |events| == n + 1 && IsRun(c, events, states)
    ensures IsRun(c, events[..n], states[..n + 1])
    ensures Sound(states[n]) && Enabled(states[n], events[n])
    ensures states[n + 1] == Step(c, states[n], events[n])
  {
    hide Lawful, Step;
  }

  lemma {:induction false} RunIsOwned(c: Ciphers, events: seq<Event>, states: seq<State>)
    requires Lawful(c) && IsRun(c, events, states)
    ensures Owned(states[|events|]) && Sound(states[|events|])
    decreases |events|
  {
    hide Lawful, Step;
    if events != [] {
      var n := |events| - 1;
      RunPrefix(c, events, states, n);
      RunIsOwned(c, events[..n], states[..n + 1]);
      StepKeepsOwned(c, states[n], events[n]);
    }
  }

  lemma BeganPersists(events: seq<Event>, states: seq<State>, client: Client, i: nat, n: nat)
    requires |events| == n + 1 && |states| == n + 2
    requires BeganAt(events[..n], states[..n + 1], client, i)
    requires client in states[n + 1].flows
    ensures BeganAt(events, states, client, i)
  {
  }

  lemma FlowContinues(c: Ciphers, events: seq<Event>, states: seq<State>, client: Client, n: nat)
    requires Lawful(c) && |events| == n + 1 && IsRun(c, events, states)
    requires Owned(states[n]) && client in states[n].flows && client in states[n + 1].flows
    requires Conserves(c, events[..n], states[..n + 1], client)
    ensures Conserves(c, events, states, client)
  {
    hide Lawful, Step, FlowHolds;
    var s, e := states[n], events[n];
    RunPrefix(c, events, states, n);
    var i: nat :| BeganAt(events[..n], states[..n + 1], client, i)
                  && FlowHolds(c, s, client, From(events[..n][i..], client));
    StepKeepsFlow(c, s, e, client, From(events[..n][i..], client));
    FromSnoc(events, i, client);
    BeganPersists(events, states, client, i, n);
  }

  /** In every run, whatever flow a client has holds exactly the datagrams received from that client
      since the flow began, in order and each once: buffered and fed to the sniffer, fewer than
      eight of them, while the name is unknown; written to the flow's own upstream afterwards. */
  lemma {:induction false} LiveFlowsConserve(c: Ciphers, events: seq<Event>, states: seq<State>, client: Client)
    requires Lawful(c) && IsRun(c, events, states)
    ensures Conserves(c, events, states, client)
    decreases |events|
  {
    hide Lawful, Step, FlowHolds;
    if events != [] && client in states[|events|].flows {
      var n := |events| - 1;
      RunPrefix(c, events, states, n);
      RunIsOwned(c, events[..n], states[..n + 1]);
      if client in states[n].flows {
        LiveFlowsConserve(c, events[..n], states[..n + 1], client);
        FlowContinues(c, events, states, client, n);
      } else {
        StepStartsFlow(c, states[n], events[n], client);
        FromSnoc(events, n, client);
        assert events[..n][n..] == [];
        assert From(events[n..], client) == [events[n].data];
        assert BeganAt(events, states, client, n);
      }
    }
  }

  ghost predicate WellWritten(c: Ciphers, events: seq<Event>, states: seq<State>, up: Upstream)
    requires Lawful(c) && |states| == |events| + 1
  {
    && (exists i: nat, j: nat :: WroteStretch(events, states, up, i, j))
    && (exists k: nat :: NamedBy(c, up, k))
  }

  lemma WellWrittenPersists(c: Ciphers, events: seq<Event>, states: seq<State>, was: Upstream, up: Upstream, n: nat)
    requires Lawful(c) && |events| == n + 1 && |states| == n + 2
    requires WellWritten(c, events[..n], states[..n + 1], was)
    requires up.client == was.client && up.name == was.name && up.written == was.written
    ensures WellWritten(c, events, states, up)
  {
    hide Lawful, WroteStretch;
    var i: nat, j: nat :| WroteStretch(events[..n], states[..n + 1], was, i, j);
    StretchPersists(events, states, was, up, i, j, n);
    var k: nat :| NamedBy(c, was, k);
    assert NamedBy(c, up, k);
  }

  lemma StretchPersists(events: seq<Event>, states: seq<State>, was: Upstream, up: Upstream, i: nat, j: nat, n: nat)
    requires |events| == n + 1 && |states| == n + 2
    requires WroteStretch(events[..n], states[..n + 1], was, i, j)
    requires up.client == was.client && up.written == was.written
    ensures WroteStretch(events, states, up, i, j)
  {
    assert events[..n][i..j] == events[i..j];
  }

  /** Just before a step, the client's flow, if it has one, has received `got`. */
  ghost predicate GotBefore(c: Ciphers, s: State, client: Client, got: seq<bytes>)
    requires Lawful(c)
  {
    if client in s.flows then FlowHolds(c, s, client, got) else got == []
  }

  /** Where the datagrams a client's flow holds begin in the run. */
  lemma StretchHeld(c: Ciphers, events: seq<Event>, states: seq<State>, client: Client,
                    got: seq<bytes>) returns (i: nat)
    requires Lawful(c) && IsRun(c, events, states) && GotBefore(c, states[|events|], client, got)
    ensures i <= |events| && client !in states[i].flows && got == From(events[i..], client)
  {
    hide Lawful, Step, Owned, FedWith, LastAnswer;
    i := |events|;
    if client in states[i].flows {
      LiveFlowsConserve(c, events, states, client);
      i :| BeganAt(events, states, client, i)
           && FlowHolds(c, states[|events|], client, From(events[i..], client));
    }
  }

  /** When a step leaves in an upstream all its flow had received and this datagram, that is one
      unbroken stretch of the run. */
  lemma WritingStepStretches(c: Ciphers, events: seq<Event>, states: seq<State>, up: Upstream, got: seq<bytes>, n: nat)
    requires Lawful(c) && |events| == n + 1 && IsRun(c, events, states)
    requires events[n].Receive? && events[n].client == up.client && up.written == got + [events[n].data]
    requires GotBefore(c, states[n], up.client, got)
    ensures exists i: nat, j: nat :: WroteStretch(events, states, up, i, j)
  {
    hide Lawful, Step, GotBefore, From;
    RunPrefix(c, events, states, n);
    var i := StretchHeld(c, events[..n], states[..n + 1], up.client, got);
    FromSnoc(events, i, up.client);
    assert events[i..n + 1] == events[i..];
    assert WroteStretch(events, states, up, i, n + 1);
  }

  lemma SomethingWasGot(c: Ciphers, events: seq<Event>, states: seq<State>, client: Client) returns (got: seq<bytes>)
    requires Lawful(c) && IsRun(c, events, states)
    ensures GotBefore(c, states[|events|], client, got)
  {
    hide Lawful, Step, FlowHolds;
    got := [];
    if client in states[|events|].flows {
      LiveFlowsConserve(c, events, states, client);
      var i: nat :| BeganAt(events, states, client, i)
                    && FlowHolds(c, states[|events|], client, From(events[i..], client));
      got := From(events[i..], client);
    }
  }

  /** In every run, what was ever written to an upstream is one unbroken stretch of its own client's
      datagrams, beginning with one that found no flow, and its name is what the extractor answered
      on a prefix of that stretch. No reaping, reply, pump end or other client disturbs this, not
      even the pump of an older upstream of the same client. */
  lemma {:induction false} UpstreamsConserve(c: Ciphers, events: seq<Event>, states: seq<State>, u: nat)
    requires Lawful(c) && IsRun(c, events, states) && u < |states[|events|].upstreams|
    ensures WellWritten(c, events, states, states[|events|].upstreams[u])
    decreases |events|
  {
    hide Lawful, Step, Owned, WellWritten;
    assert events != [];
    var n := |events| - 1;
    RunPrefix(c, events, states, n);
    RunIsOwned(c, events[..n], states[..n + 1]);
    if u < |states[n].upstreams| {
      UpstreamsConserve(c, events[..n], states[..n + 1], u);
      OldUpstreamConserves(c, events, states, u, n);
    } else {
      NewUpstreamConserves(c, events, states, u, n);
    }
  }

  lemma OldUpstreamConserves(c: Ciphers, events: seq<Event>, states: seq<State>, u: nat, n: nat)
    requires Lawful(c) && |events| == n + 1 && IsRun(c, events, states)
    requires Owned(states[n]) && u < |states[n].upstreams|
    requires WellWritten(c, events[..n], states[..n + 1], states[n].upstreams[u])
    ensures u < |states[n + 1].upstreams|
    ensures WellWritten(c, events, states, states[n + 1].upstreams[u])
  {
    hide Lawful, Step, WroteStretch, FedWith, LastAnswer, Enabled;
    RunPrefix(c, events, states, n);
    var was := states[n].upstreams[u];
    StepKeepsUpstream(c, states[n], events[n], u);
    var up := states[n + 1].upstreams[u];
    if up.written == was.written {
      WellWrittenPersists(c, events, states, was, up, n);
    } else {
      assert GotBefore(c, states[n], up.client, was.written);
      WritingStepStretches(c, events, states, up, was.written, n);
      var k: nat :| NamedBy(c, was, k);
      assert up.written[..k] == was.written[..k];
      assert NamedBy(c, up, k);
    }
  }

  lemma NewUpstreamConserves(c: Ciphers, events: seq<Event>, states: seq<State>, u: nat, n: nat)
    requires Lawful(c) && |events| == n + 1 && IsRun(c, events, states)
    requires Owned(states[n]) && |states[n].upstreams| <= u < |states[n + 1].upstreams|
    ensures WellWritten(c, events, states, states[n + 1].upstreams[u])
  {
    hide Lawful, Step, WroteStretch, Owned, GotBefore;
    RunPrefix(c, events, states, n);
    OnlyReceiveDials(c, states[n], events[n]);
    var got := SomethingWasGot(c, events[..n], states[..n + 1], events[n].client);
    StepDials(c, states[n], events[n], u, got);
    var up := states[n + 1].upstreams[u];
    WritingStepStretches(c, events, states, up, got, n);
    assert NamedBy(c, up, |up.written|);
  }

  /** In every run, an upstream whose datagrams carry one handshake stream was dialled under the
      server name in that stream. */
  lemma RoutedUnderTheRightName(c: Ciphers, events: seq<Event>, states: seq<State>, u: nat, stream: bytes)
    requires Lawful(c) && IsRun(c, events, states) && u < |states[|events|].upstreams|
    requires CarriesStream(c, states[|events|].upstreams[u].written, stream)
    ensures states[|events|].upstreams[u].name == ParseSNI(stream) != []
  {
    hide Lawful, Step, FedWith, LastAnswer, WroteStretch;
    UpstreamsConserve(c, events, states, u);
    var up := states[|events|].upstreams[u];
    var k: nat :| NamedBy(c, up, k);
    ContributionsGrow(c, up.written, k);
    EveryAnswerIsRight(c, up.written[..k], stream);
  }
}
