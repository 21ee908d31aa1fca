/**
 * The channel bridge of circuits/net/socket.py.
 *
 * A bridge (`Socket`, or its `Server`/`Client` roles) owns a set of bound
 * transport components. Binding resolves an interface to a component and
 * installs two relay handlers over a fixed vocabulary of ten event names: an
 * upward one on the component's private channel that re-fires the component's
 * own events on the bridge's channel, and a downward one on the bridge's
 * channel that re-fires the bridge's own events on the component's channel.
 *
 * Component identity is object identity: a `Component` is a Dafny object and
 * origins are compared by reference. The event dispatcher is modelled by the
 * handler table the bridge installs (`handlers`, in registration order) and by
 * `Fire`, which says which new events the table produces for one event fired
 * on one channel.
 */
module NetSocket {
  import opened Results
  import opened Strings

  /** The event names a bridge relays, in either direction (socket.py:14-15). */
  const Events: set<string> :=
    {"connect", "disconnect", "connected", "disconnected",
     "read", "error", "write", "close", "ready", "closed"}

  /** The transport class a bound component is an instance of. */
  datatype Transport =
    | ServerTransport  // circuits.net.sockets.Server
    | ClientTransport  // circuits.net.sockets.Client

  /** A bound transport component: an identity with its private channel. */
  class Component {
    const channel: string
    const transport: Transport

    constructor (channel: string, transport: Transport)
      ensures this.channel == channel && this.transport == transport
    {
      this.channel := channel;
      this.transport := transport;
    }
  }

  /** The positional and keyword arguments an event carries. */
  datatype Payload = Payload(args: seq<string>, kwargs: map<string, string>)

  /** An event: its name, its payload, and the component that fired it. */
  datatype Event = Event(name: string, payload: Payload, origin: object)

  /** An event fired onto a channel; the dispatcher stamps the firer as its origin. */
  datatype Fired = Fired(event: Event, channel: string)

  /** The closure of a relay handler: the bound component and the bridge. */
  datatype Rule =
    | Upward(socket: Component, bridge: Socket)
    | Downward(socket: Component, bridge: Socket)

  /** A dispatcher entry: listens on one channel for a set of event names. */
  datatype Handler = Handler(channel: string, names: set<string>, rule: Rule)

  /**
   * What one relay handler does with an event it receives; `registry` is the
   * bridge's `_sockets` at the time the event is handled. The forwarded event
   * is a new event with the same name and payload, fired by the relaying side,
   * whose identity the guards have just required to be the origin: so the new
   * event equals the old one as a value.
   */
  function Apply(rule: Rule, registry: set<Component>, e: Event): (r: Option<Fired>)
    ensures r.Some? ==> r.value.event == e
    ensures rule.Upward? ==>
      (r.Some? <==> e.origin == rule.socket) &&
      (r.Some? ==> r.value.channel == rule.bridge.channel)
    ensures rule.Downward? ==>
      (r.Some? <==> e.origin == rule.bridge && e.origin !in registry) &&
      (r.Some? ==> r.value.channel == rule.socket.channel)
  {
    match rule
    case Upward(s, b) =>
      if e.origin != s then None
      else Some(Fired(Event(e.name, e.payload, s), b.channel))
    case Downward(s, b) =>
      if e.origin in registry then None
      else if e.origin == s then None
      else if e.origin != b then None
      else Some(Fired(Event(e.name, e.payload, b), s.channel))
  }

  /**
   * The events that the handlers of `table`, visited in registration order,
   * fire in response to event `e` fired on channel `c`.
   */
  function Fire(table: seq<Handler>, registry: set<Component>, e: Event, c: string): seq<Fired>
  {
    if table == [] then []
    else
      var h := table[|table| - 1];
      var step := if h.channel == c && e.name in h.names then Apply(h.rule, registry, e) else None;
      Fire(table[..|table| - 1], registry, e, c) + (if step.Some? then [step.value] else [])
  }

  lemma {:induction false} FireAppend(t1: seq<Handler>, t2: seq<Handler>, registry: set<Component>, e: Event, c: string)
    ensures Fire(t1 + t2, registry, e, c) == Fire(t1, registry, e, c) + Fire(t2, registry, e, c)
  {
    if t2 == [] {
      assert t1 + t2 == t1;
    } else {
      assert (t1 + t2)[..|t1 + t2| - 1] == t1 + t2[..|t2| - 1];
      FireAppend(t1, t2[..|t2| - 1], registry, e, c);
    }
  }

  /**
   * The two handlers that one `bind` installs (socket.py:28-38 and 42-54):
   * first the upward one, listening on the component's channel, then the
   * downward one, listening on the bridge's channel, both for the ten names.
   */
  function HandlerPair(s: Component, b: Socket): (r: seq<Handler>)
    ensures |r| == 2
    ensures r[0].channel == s.channel && r[0].rule == Upward(s, b)
    ensures r[1].channel == b.channel && r[1].rule == Downward(s, b)
    ensures forall k :: 0 <= k < 2 ==> r[k].names == Events
  {
    [Handler(s.channel, Events, Upward(s, b)), Handler(b.channel, Events, Downward(s, b))]
  }

  function StepOf(h: Handler, registry: set<Component>, e: Event, c: string): seq<Fired>
  {
    var step := if h.channel == c && e.name in h.names then Apply(h.rule, registry, e) else None;
    if step.Some? then [step.value] else []
  }

  lemma FirePair(s: Component, b: Socket, registry: set<Component>, e: Event, c: string)
    ensures Fire(HandlerPair(s, b), registry, e, c) ==
      StepOf(HandlerPair(s, b)[0], registry, e, c) + StepOf(HandlerPair(s, b)[1], registry, e, c)
  {
    var pair := HandlerPair(s, b);
    assert pair[..1] == [pair[0]];
    assert [pair[0]][..0] == [];
    assert Fire([pair[0]], registry, e, c) == StepOf(pair[0], registry, e, c);
    assert Fire(pair, registry, e, c) == Fire([pair[0]], registry, e, c) + StepOf(pair[1], registry, e, c);
  }

  /** The handler table after binding the components `bs` in order. */
  function RulesFor(bs: seq<Component>, b: Socket): (t: seq<Handler>)
    ensures |t| == 2 * |bs|
  {
    if bs == [] then [] else RulesFor(bs[..|bs| - 1], b) + HandlerPair(bs[|bs| - 1], b)
  }

  function Members(bs: seq<Component>): set<Component>
  {
    set k | 0 <= k < |bs| :: bs[k]
  }

  lemma MembersAppend(bs: seq<Component>, s: Component)
    ensures Members(bs + [s]) == Members(bs) + {s}
  {
    var bs' := bs + [s];
    forall x | x in Members(bs') ensures x in Members(bs) + {s} {
      var k :| 0 <= k < |bs'| && bs'[k] == x;
      if k < |bs| { assert bs[k] == x; }
    }
    forall x | x in Members(bs) ensures x in Members(bs') {
      var k :| 0 <= k < |bs| && bs[k] == x;
      assert bs'[k] == x;
    }
    assert bs'[|bs|] == s;
  }

  /** How often `s` was bound. */
  function Occurrences(bs: seq<Component>, s: Component): nat
  {
    if bs == [] then 0
    else Occurrences(bs[..|bs| - 1], s) + (if bs[|bs| - 1] == s then 1 else 0)
  }

  /** The bridge's event `e` delivered onto the channel of every bound component, in bind order. */
  function FanOut(bs: seq<Component>, e: Event): (r: seq<Fired>)
    ensures |r| == |bs|
    ensures forall k :: 0 <= k < |bs| ==> r[k] == Fired(e, bs[k].channel)
  {
    seq(|bs|, k requires 0 <= k < |bs| => Fired(e, bs[k].channel))
  }

  function Copies(f: Fired, n: nat): (r: seq<Fired>)
    ensures |r| == n && forall k :: 0 <= k < n ==> r[k] == f
  {
    seq(n, _ => f)
  }

  /**
   * An event fired by the bridge itself: on the bridge's channel it is delivered
   * onto every bound component's channel, once per bind and in bind order; on
   * any other channel nothing happens.
   */
  lemma {:induction false} BridgeEventFansOut(bs: seq<Component>, b: Socket, registry: set<Component>, e: Event, c: string)
    requires e.origin == b && e.name in Events
    ensures Fire(RulesFor(bs, b), registry, e, c) == if c == b.channel then FanOut(bs, e) else []
  {
    if bs != [] {
      var pre, s := bs[..|bs| - 1], bs[|bs| - 1];
      BridgeEventFansOut(pre, b, registry, e, c);
      FireAppend(RulesFor(pre, b), HandlerPair(s, b), registry, e, c);
      PairOnBridgeEvent(s, b, registry, e, c);
      if c == b.channel {
        FanOutLast(bs, e);
      }
    }
  }

  lemma FanOutLast(bs: seq<Component>, e: Event)
    requires bs != []
    ensures FanOut(bs, e) == FanOut(bs[..|bs| - 1], e) + [Fired(e, bs[|bs| - 1].channel)]
  {
    var r := FanOut(bs[..|bs| - 1], e) + [Fired(e, bs[|bs| - 1].channel)];
    assert forall k :: 0 <= k < |bs| ==> FanOut(bs, e)[k] == r[k];
  }

  /** One bind's handlers, given an event of the bridge: only the downward one fires. */
  lemma PairOnBridgeEvent(s: Component, b: Socket, registry: set<Component>, e: Event, c: string)
    requires e.origin == b && e.name in Events
    ensures Fire(HandlerPair(s, b), registry, e, c) == if c == b.channel then [Fired(e, s.channel)] else []
  {
    FirePair(s, b, registry, e, c);
  }

  /**
   * An event fired by a bound component: it is relayed onto the bridge's
   * channel once per time that component was bound, when it is fired on the
   * component's own channel, and it is never relayed onto any component's
   * channel (no self-echo, no leak to other components).
   */
  lemma {:induction false} SocketEventGoesUp(bs: seq<Component>, b: Socket, registry: set<Component>, s: Component, e: Event, c: string)
    requires e.origin == s && s in registry && e.name in Events
    ensures Fire(RulesFor(bs, b), registry, e, c) ==
      if c == s.channel then Copies(Fired(e, b.channel), Occurrences(bs, s)) else []
  {
    if bs != [] {
      var pre, t := bs[..|bs| - 1], bs[|bs| - 1];
      SocketEventGoesUp(pre, b, registry, s, e, c);
      FireAppend(RulesFor(pre, b), HandlerPair(t, b), registry, e, c);
      PairOnSocketEvent(t, b, registry, s, e, c);
      if c == s.channel {
        assert Copies(Fired(e, b.channel), Occurrences(pre, s)) + (if t == s then [Fired(e, b.channel)] else [])
            == Copies(Fired(e, b.channel), Occurrences(bs, s));
      }
    }
  }

  /** One bind's handlers, given an event of a bound component: only that component's upward one fires. */
  lemma PairOnSocketEvent(t: Component, b: Socket, registry: set<Component>, s: Component, e: Event, c: string)
    requires e.origin == s && s in registry && e.name in Events
    ensures Fire(HandlerPair(t, b), registry, e, c) == if c == s.channel && t == s then [Fired(e, b.channel)] else []
  {
    FirePair(t, b, registry, e, c);
  }

  /**
   * An event whose origin is neither the bridge nor a bound component is
   * relayed nowhere, whatever channel it is fired on.
   */
  lemma {:induction false} ForeignEventIsInert(bs: seq<Component>, b: Socket, registry: set<Component>, e: Event, c: string)
    requires Members(bs) <= registry
    requires e.origin != b && e.origin !in registry
    ensures Fire(RulesFor(bs, b), registry, e, c) == []
  {
    if bs != [] {
      var pre := bs[..|bs| - 1];
      assert Members(pre) <= Members(bs);
      ForeignEventIsInert(pre, b, registry, e, c);
      FireAppend(RulesFor(pre, b), HandlerPair(bs[|bs| - 1], b), registry, e, c);
      FirePair(bs[|bs| - 1], b, registry, e, c);
      assert bs[|bs| - 1] in Members(bs);
    }
  }

  /** Events outside the ten relayed names are relayed nowhere, whatever their origin. */
  lemma {:induction false} OtherNamesAreIgnored(bs: seq<Component>, b: Socket, registry: set<Component>, e: Event, c: string)
    requires e.name !in Events
    ensures Fire(RulesFor(bs, b), registry, e, c) == []
  {
    if bs != [] {
      var pre := bs[..|bs| - 1];
      OtherNamesAreIgnored(pre, b, registry, e, c);
      FireAppend(RulesFor(pre, b), HandlerPair(bs[|bs| - 1], b), registry, e, c);
      FirePair(bs[|bs| - 1], b, registry, e, c);
    }
  }

  lemma {:induction false} OccurrencesOfMember(bs: seq<Component>, s: Component)
    ensures s in Members(bs) <==> Occurrences(bs, s) > 0
  {
    if bs != [] {
      var pre := bs[..|bs| - 1];
      OccurrencesOfMember(pre, s);
      MembersAppend(pre, bs[|bs| - 1]);
      assert pre + [bs[|bs| - 1]] == bs;
    }
  }

  /** Whether a component's private channel coincides with the bridge's channel. */
  predicate ChannelsApart(bs: seq<Component>, b: Socket)
  {
    forall k :: 0 <= k < |bs| ==> bs[k].channel != b.channel
  }

  /**
   * The relay never loops: when no bound component listens on the bridge's own
   * channel, every event the handlers fire is itself relayed nowhere, so one
   * event causes at most one hop of forwarding.
   */
  lemma RelayIsOneHop(bs: seq<Component>, b: Socket, e: Event, c: string, f: Fired)
    requires ChannelsApart(bs, b)
    requires f in Fire(RulesFor(bs, b), Members(bs), e, c)
    ensures Fire(RulesFor(bs, b), Members(bs), f.event, f.channel) == []
  {
    var table, registry := RulesFor(bs, b), Members(bs);
    if e.name !in Events {
      OtherNamesAreIgnored(bs, b, registry, e, c);
    } else if e.origin == b {
      BridgeEventFansOut(bs, b, registry, e, c);
      var k :| 0 <= k < |bs| && f == Fired(e, bs[k].channel);
      BridgeEventFansOut(bs, b, registry, f.event, f.channel);
    } else if e.origin in registry {
      var s := e.origin as Component;
      SocketEventGoesUp(bs, b, registry, s, e, c);
      assert f == Fired(e, b.channel);
      var k :| 0 <= k < |bs| && bs[k] == s;
      SocketEventGoesUp(bs, b, registry, s, f.event, f.channel);
    } else {
      ForeignEventIsInert(bs, b, registry, e, c);
    }
  }

  /** The role that decides how a non-component interface is resolved. */
  datatype Role =
    | Plain   // Socket itself
    | Server  // socket.py:67-70
    | Client  // socket.py:73-76

  /** What `bind` is given: a live component, or an opaque interface known by its identity token. */
  datatype Interface = Live(component: Component) | Address(token: nat)

  datatype BindError =
    | NotImplemented  // Socket.parse_interface_type is abstract
    | TypeError       // a call with the wrong number of arguments

  /** How a bind obtains its component: use it as given, or construct one. */
  datatype Plan =
    | UseAsIs(component: Component)
    | Construct(transport: Transport, context: map<string, string>)

  /**
   * The module-level parse_interface_type with the one parameter its callers
   * pass: no construction arguments, and the interface unchanged.
   */
  function ParseInterface(i: Interface): (r: (map<string, string>, Interface))
    ensures r.0 == map[] && r.1 == i
  {
    (map[], i)
  }

  /** The private channel of a component built for an interface: "{channel}_{token}". */
  function SubChannel(channel: string, token: nat): (sub: string)
    ensures |sub| > |channel| && sub[..|channel|] == channel && sub[|channel|] == '_'
  {
    channel + "_" + NatToString(token)
  }

  /** Interfaces with different tokens get different private channels, none of them the bridge's. */
  lemma SubChannelsDistinct(channel: string, t1: nat, t2: nat)
    ensures SubChannel(channel, t1) != channel
    ensures SubChannel(channel, t1) == SubChannel(channel, t2) ==> t1 == t2
  {
    if SubChannel(channel, t1) == SubChannel(channel, t2) {
      var n := |channel| + 1;
      assert SubChannel(channel, t1)[n..] == NatToString(t1);
      assert SubChannel(channel, t2)[n..] == NatToString(t2);
      NatToStringInjective(t1, t2);
    }
  }

  /**
   * __get_socket_component with each role's parse_interface_type, the module-level
   * parser taking the single argument its callers give it.
   */
  function Resolve(role: Role, channel: string, i: Interface): (r: Result<Plan, BindError>)
    ensures i.Live? ==> r == Ok(UseAsIs(i.component))
    ensures i.Address? && role == Plain ==> r == Err(NotImplemented)
    ensures i.Address? && role != Plain ==>
      r.Ok? && r.value.Construct? &&
      r.value.transport == (if role == Server then ServerTransport else ClientTransport) &&
      r.value.context == map["channel" := SubChannel(channel, i.token)]
  {
    match i
    case Live(c) => Ok(UseAsIs(c))
    case Address(_) =>
      if role == Plain then Err(NotImplemented)
      else
        var (context, parsed) := ParseInterface(i);
        var transport := if role == Server then ServerTransport else ClientTransport;
        Ok(Construct(transport, context["channel" := SubChannel(channel, parsed.token)]))
  }

  /**
   * __get_socket_component as written: Server and Client call the module-level
   * parse_interface_type(self, interface) with one argument, which raises.
   */
  function ResolveAsWritten(role: Role, channel: string, i: Interface): (r: Result<Plan, BindError>)
    ensures r.Ok? <==> i.Live?
    ensures i.Live? ==> r == Ok(UseAsIs(i.component))
    ensures i.Address? ==> r == Err(if role == Plain then NotImplemented else TypeError)
  {
    match i
    case Live(c) => Ok(UseAsIs(c))
    case Address(_) => if role == Plain then Err(NotImplemented) else Err(TypeError)
  }

  /**
   * As written, no role can bind an interface that is not already a component:
   * Server and Client raise TypeError where the corrected resolution builds
   * their transport; for components both agree.
   */
  lemma AsWrittenAddressNeverBinds(role: Role, channel: string, token: nat, c: Component)
    ensures ResolveAsWritten(role, channel, Address(token)).Err?
    ensures role != Plain ==>
      ResolveAsWritten(role, channel, Address(token)) == Err(TypeError) &&
      Resolve(role, channel, Address(token)).Ok?
    ensures ResolveAsWritten(role, channel, Live(c)) == Resolve(role, channel, Live(c))
  {
  }

  /** The bridge: its channel, its role, its bound components and the handlers it installed. */
  class Socket {
    const channel: string
    const role: Role
    var sockets: set<Component>
    var handlers: seq<Handler>
    /** The components bound so far, in bind order and with repeats. */
    ghost var Bound: seq<Component>

    ghost predicate Valid()
      reads this
    {
      sockets == Members(Bound) && handlers == RulesFor(Bound, this)
    }

    /** Socket.__init__ (socket.py:17-19): an empty set of bound components. */
    constructor (channel: string, role: Role)
      ensures Valid()
      ensures this.channel == channel && this.role == role
      ensures Bound == [] && sockets == {} && handlers == []
    {
      this.channel := channel;
      this.role := role;
      sockets := {};
      handlers := [];
      Bound := [];
    }

    /**
     * Socket.bind (socket.py:21-54): resolve the interface, add the component
     * to the set, install its upward and downward handlers. A failed
     * resolution raises before anything changes.
     */
    method Bind(i: Interface) returns (r: Result<Component, BindError>)
      requires Valid()
      modifies this
      ensures Valid()
      ensures r.Err? ==>
        Resolve(role, channel, i) == Err(r.error) &&
        Bound == old(Bound) && sockets == old(sockets) && handlers == old(handlers)
      ensures r.Ok? ==>
        Bound == old(Bound) + [r.value] &&
        sockets == old(sockets) + {r.value} &&
        handlers == old(handlers) + HandlerPair(r.value, this)
      ensures i.Live? ==> r == Ok(i.component)
      ensures i.Address? ==> (r.Ok? <==> role != Plain)
      ensures i.Address? && r.Ok? ==>
        fresh(r.value) && r.value.channel == SubChannel(channel, i.token) &&
        r.value.transport == (if role == Server then ServerTransport else ClientTransport)
    {
      var plan := Resolve(role, channel, i);
      if plan.Err? {
        return Err(plan.error);
      }
      var socket: Component;
      match plan.value {
        case UseAsIs(c) =>
          socket := c;
        case Construct(transport, context) =>
          socket := new Component(context["channel"], transport);
      }
      MembersAppend(Bound, socket);
      sockets := sockets + {socket};
      Bound := Bound + [socket];
      assert Bound[..|Bound| - 1] == old(Bound);
      handlers := handlers + HandlerPair(socket, this);
      r := Ok(socket);
    }
  }

  /**
   * For a bridge in its consistent state: an event fired by a bound component
   * on its channel reaches the bridge's channel exactly once when that
   * component was bound once, and reaches no component's channel.
   */
  lemma BoundOnceRelaysOnce(b: Socket, s: Component, e: Event)
    requires b.Valid() && s in b.sockets && Occurrences(b.Bound, s) == 1
    requires e.origin == s && e.name in Events
    ensures Fire(b.handlers, b.sockets, e, s.channel) == [Fired(e, b.channel)]
  {
    SocketEventGoesUp(b.Bound, b, b.sockets, s, e, s.channel);
  }

  /**
   * For a bridge in its consistent state: an event fired by a bound component
   * on the bridge's own channel is never pushed down to any component (the
   * downward handler drops events of members, socket.py:44-45). The only
   * events it can cause are copies of itself on the bridge's channel, and
   * only when that component listens on the bridge's channel; when no
   * component does, it causes nothing at all.
   */
  lemma UpwardEchoIsDropped(b: Socket, s: Component, e: Event)
    requires b.Valid() && s in b.sockets
    requires e.origin == s
    ensures forall f :: f in Fire(b.handlers, b.sockets, e, b.channel) ==> f == Fired(e, b.channel)
    ensures s.channel != b.channel ==> Fire(b.handlers, b.sockets, e, b.channel) == []
    ensures ChannelsApart(b.Bound, b) ==> Fire(b.handlers, b.sockets, e, b.channel) == []
  {
    if e.name in Events {
      SocketEventGoesUp(b.Bound, b, b.sockets, s, e, b.channel);
      var k :| 0 <= k < |b.Bound| && b.Bound[k] == s;
    } else {
      OtherNamesAreIgnored(b.Bound, b, b.sockets, e, b.channel);
    }
  }

  /**
   * A component bound as given whose channel is the bridge's own: its upward
   * handler re-fires each of its events on that same channel with the same
   * origin, so the event it produces is the event it received, which the same
   * handler then matches again. The relay never stops for such a component.
   */
  lemma SharedChannelRelaysForever(b: Socket, s: Component, e: Event)
    requires b.Valid() && Occurrences(b.Bound, s) == 1
    requires s.channel == b.channel && e.origin == s && e.name in Events
    ensures Fire(b.handlers, b.sockets, e, b.channel) == [Fired(e, b.channel)]
    ensures var f := Fire(b.handlers, b.sockets, e, b.channel)[0];
      Fire(b.handlers, b.sockets, f.event, f.channel) == [f]
  {
    OccurrencesOfMember(b.Bound, s);
    SocketEventGoesUp(b.Bound, b, b.sockets, s, e, b.channel);
  }
}
