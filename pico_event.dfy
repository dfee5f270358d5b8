/*
 * A model of PicoEvent, a small in-process event bus.
 *
 * A published payload is wrapped in a message that carries its channel (the
 * payload's constructor) and a list of target strings. A listener registers
 * for one channel with a target filter, and receives a message exactly when
 * the channels are equal and the message's targets are valid for its filter.
 */
module LibService {

  /** The identity of a payload's constructor. Only ever compared for equality. */
  type Channel = nat

  /** An opaque recipient identifier. */
  type Target = string

  datatype Option<T> = None | Some(value: T)

  /** What the bus pushes through its subject for every publish. */
  datatype Message<P> = Message(channel: Channel, payload: P, targets: seq<Target>)

  /** The structured form of `listen`'s first argument; `msgType` is null by default. */
  datatype ListenParams = ListenParams(msgType: Option<Channel>, targets: seq<Target>)

  /** A `ListenParams` object as freshly constructed: no type, no targets. */
  const DefaultListenParams := ListenParams(None, [])

  /** The two shapes `listen` accepts: a bare constructor, or a params object. */
  datatype ListenArg = Bare(msgType: Channel) | WithParams(params: ListenParams)

  /** One live registration: its cancellation handle, its channel and its target filter. */
  datatype Subscription = Subscription(id: nat, channel: Option<Channel>, targets: seq<Target>)

  /** One call of a listener's callback: which subscription, and the value it was handed. */
  datatype Delivery<P> = Delivery(to: Subscription, value: P)

  // ---------------------------------------------------------------------------
  // The target rule

  /** `Array.prototype.indexOf` on a list of targets: the first position of `v`, or -1. */
  function IndexOf(s: seq<Target>, v: Target): (r: int)
    ensures -1 <= r < |s|
    ensures r == -1 <==> v !in s
    ensures 0 <= r ==> s[r] == v && v !in s[..r]
  {
    if s == [] then -1
    else if s[0] == v then 0
    else
      var k := IndexOf(s[1..], v);
      if k == -1 then -1
      else
        assert s[..k + 1] == [s[0]] + s[1..][..k];
        k + 1
  }

  /** `subscribed.some(v => messageTargets.indexOf(v) >= 0)`. */
  function SomeListed(subscribed: seq<Target>, messageTargets: seq<Target>): (r: bool)
    ensures r <==> exists i :: 0 <= i < |subscribed| && subscribed[i] in messageTargets
  {
    if subscribed == [] then false
    else if IndexOf(messageTargets, subscribed[0]) >= 0 then true
    else
      var rest := SomeListed(subscribed[1..], messageTargets);
      assert rest ==> exists i :: 0 <= i < |subscribed| && subscribed[i] in messageTargets by {
        if rest {
          var j :| 0 <= j < |subscribed[1..]| && subscribed[1..][j] in messageTargets;
          assert subscribed[j + 1] in messageTargets;
        }
      }
      rest
  }

  /** Reference definition: the two target lists share at least one identifier. */
  ghost predicate Intersect(a: seq<Target>, b: seq<Target>)
  {
    exists t :: t in a && t in b
  }

  /** The asymmetric target rule of `validTarget`. */
  function ValidTarget(messageTargets: seq<Target>, subscribedTargets: seq<Target>): (r: bool)
    ensures r <==> messageTargets == [] || Intersect(subscribedTargets, messageTargets)
  {
    if |messageTargets| == 0 then true
    else SomeListed(subscribedTargets, messageTargets)
  }

  /** The filter each subscription puts in front of its callback. */
  predicate Matches<P>(msg: Message<P>, sub: Subscription)
    ensures Matches(msg, sub) ==> sub.channel == Some(msg.channel)
    ensures sub.channel == Some(msg.channel) && msg.targets == [] ==> Matches(msg, sub)
    ensures sub.targets == [] && msg.targets != [] ==> !Matches(msg, sub)
  {
    sub.channel == Some(msg.channel) && ValidTarget(msg.targets, sub.targets)
  }

  /** The delivery rule, stated with the reference intersection. */
  lemma MatchesExactly<P>(msg: Message<P>, sub: Subscription)
    ensures Matches(msg, sub) <==>
      sub.channel == Some(msg.channel) && (msg.targets == [] || Intersect(sub.targets, msg.targets))
  {
  }

  /** A message without targets matches every subscription on its channel, whatever its filter. */
  lemma UntargetedMatchesAnyFilter<P>(msg: Message<P>, sub: Subscription)
    requires msg.targets == [] && sub.channel == Some(msg.channel)
    ensures Matches(msg, sub)
  {
  }

  /** A subscription with an empty filter does not match a targeted message. */
  lemma EmptyFilterMissesTargeted<P>(msg: Message<P>, sub: Subscription)
    requires msg.targets != [] && sub.targets == []
    ensures !Matches(msg, sub)
  {
  }

  /** No subscription matches a message of another channel, nor one whose type is null. */
  lemma OtherChannelNeverMatches<P>(msg: Message<P>, sub: Subscription)
    requires sub.channel != Some(msg.channel)
    ensures !Matches(msg, sub)
  {
  }

  /** Whether the filter admits a message is symmetric in the two lists once the message is targeted. */
  lemma TargetedRuleSymmetric(a: seq<Target>, b: seq<Target>)
    requires a != [] && b != []
    ensures ValidTarget(a, b) == ValidTarget(b, a)
  {
  }

  // ---------------------------------------------------------------------------
  // Listening

  /** A params object left at its defaults has a null type, so its subscription is never served. */
  lemma DefaultParamsNeverMatch<P>(id: nat, msg: Message<P>)
    ensures !Matches(msg, Subscription(id, DefaultListenParams.msgType, DefaultListenParams.targets))
  {
  }

  /** The `typeof params === 'object'` dispatch of `listen`: the channel and filter handed on. */
  function Filter(arg: ListenArg): (p: ListenParams)
    ensures arg.Bare? ==> p.msgType == Some(arg.msgType) && p.targets == []
    ensures arg.WithParams? ==> p == arg.params
  {
    match arg
    case Bare(t) => ListenParams(Some(t), [])
    case WithParams(params) => params
  }

  /** `listen(T, cb)` and `listen({type: T, targets: []}, cb)` register the same filter. */
  lemma BareIsEmptyParams(t: Channel)
    ensures Filter(Bare(t)) == Filter(WithParams(ListenParams(Some(t), [])))
    ensures Filter(Bare(t)).targets == []
  {
  }

  // ---------------------------------------------------------------------------
  // Delivery over a list of subscriptions

  /** What one publish hands out: one delivery per matching subscription, in registration order. */
  function Deliveries<P>(subs: seq<Subscription>, msg: Message<P>): (ds: seq<Delivery<P>>)
    ensures |ds| <= |subs|
  {
    if subs == [] then []
    else
      var last := subs[|subs| - 1];
      Deliveries(subs[..|subs| - 1], msg) + (if Matches(msg, last) then [Delivery(last, msg.payload)] else [])
  }

  /** Delivery distributes over concatenation: earlier registrations are served first. */
  lemma {:induction false} DeliveriesAppend<P>(a: seq<Subscription>, b: seq<Subscription>, msg: Message<P>)
    ensures Deliveries(a + b, msg) == Deliveries(a, msg) + Deliveries(b, msg)
  {
    if b == [] {
      assert a + b == a;
    } else {
      var init := b[..|b| - 1];
      assert (a + b)[..|a + b| - 1] == a + init;
      DeliveriesAppend(a, init, msg);
    }
  }

  /** Every delivery carries the published payload itself, to a listed subscription that matches. */
  lemma {:induction false} DeliveriesSound<P>(subs: seq<Subscription>, msg: Message<P>)
    ensures forall d :: d in Deliveries(subs, msg) ==>
      d.value == msg.payload && d.to in subs && Matches(msg, d.to)
  {
    if subs != [] {
      var init := subs[..|subs| - 1];
      DeliveriesSound(init, msg);
      forall d | d in Deliveries(subs, msg)
        ensures d.value == msg.payload && d.to in subs && Matches(msg, d.to)
      {
        if d in Deliveries(init, msg) {
          assert d.to in init;
        }
      }
    }
  }

  /** A subscription is served exactly as often as it is listed if it matches, and never otherwise. */
  lemma {:induction false} DeliveriesCount<P>(subs: seq<Subscription>, msg: Message<P>, s: Subscription)
    ensures multiset(Deliveries(subs, msg))[Delivery(s, msg.payload)] ==
      if Matches(msg, s) then multiset(subs)[s] else 0
  {
    if subs != [] {
      var init, last := subs[..|subs| - 1], subs[|subs| - 1];
      assert subs == init + [last];
      DeliveriesCount(init, msg, s);
    }
  }

  /** Two matching subscriptions registered one after the other are served in that order. */
  lemma RegistrationOrder<P>(pre: seq<Subscription>, s1: Subscription, mid: seq<Subscription>,
                             s2: Subscription, post: seq<Subscription>, msg: Message<P>)
    requires Matches(msg, s1) && Matches(msg, s2)
    ensures Deliveries(pre + [s1] + mid + [s2] + post, msg) ==
      Deliveries(pre, msg) + [Delivery(s1, msg.payload)] + Deliveries(mid, msg)
        + [Delivery(s2, msg.payload)] + Deliveries(post, msg)
  {
    assert Deliveries([s1], msg) == [Delivery(s1, msg.payload)] by {
      assert [s1][..0] == [];
    }
    assert Deliveries([s2], msg) == [Delivery(s2, msg.payload)] by {
      assert [s2][..0] == [];
    }
    DeliveriesAppend(pre, [s1], msg);
    DeliveriesAppend(pre + [s1], mid, msg);
    DeliveriesAppend(pre + [s1] + mid, [s2], msg);
    DeliveriesAppend(pre + [s1] + mid + [s2], post, msg);
  }

  // ---------------------------------------------------------------------------
  // Handles and cancellation

  /** Handles are issued in increasing order, so the live list is sorted by handle. */
  ghost predicate IdsIncreasing(subs: seq<Subscription>)
  {
    forall i, j :: 0 <= i < j < |subs| ==> subs[i].id < subs[j].id
  }

  /** The live list after the subscription with handle `id` unsubscribes. */
  function Without(subs: seq<Subscription>, id: nat): (r: seq<Subscription>)
    ensures |r| <= |subs|
  {
    if subs == [] then []
    else (if subs[0].id == id then [] else [subs[0]]) + Without(subs[1..], id)
  }

  /** What is left after cancelling was live before, and none of it holds the cancelled handle. */
  lemma {:induction false} WithoutDrops(subs: seq<Subscription>, id: nat)
    ensures forall s :: s in Without(subs, id) ==> s in subs && s.id != id
  {
    if subs != [] {
      WithoutDrops(subs[1..], id);
    }
  }

  /** Cancelling one handle leaves every other subscription listed exactly as often as before. */
  lemma {:induction false} WithoutCount(subs: seq<Subscription>, id: nat, s: Subscription)
    ensures multiset(Without(subs, id))[s] == if s.id == id then 0 else multiset(subs)[s]
  {
    if subs != [] {
      assert subs == [subs[0]] + subs[1..];
      WithoutCount(subs[1..], id, s);
    }
  }

  /** Removing a handle nobody holds changes nothing. */
  lemma {:induction false} WithoutAbsent(subs: seq<Subscription>, id: nat)
    requires forall i :: 0 <= i < |subs| ==> subs[i].id != id
    ensures Without(subs, id) == subs
  {
    if subs != [] {
      WithoutAbsent(subs[1..], id);
      assert subs == [subs[0]] + subs[1..];
    }
  }

  /** The records after the first are still sorted, and all come after the first. */
  lemma IncreasingTail(subs: seq<Subscription>)
    requires IdsIncreasing(subs) && subs != []
    ensures IdsIncreasing(subs[1..])
    ensures forall i :: 0 <= i < |subs[1..]| ==> subs[0].id < subs[1..][i].id
  {
  }

  /** Cancelling the first record's handle, when no later record holds it, leaves exactly the rest. */
  lemma DropsHead(subs: seq<Subscription>)
    requires subs != []
    requires forall i :: 0 < i < |subs| ==> subs[i].id != subs[0].id
    ensures Without(subs, subs[0].id) == subs[1..]
  {
    WithoutAbsent(subs[1..], subs[0].id);
  }

  /** Cancelling a handle the first record does not hold keeps that record in front. */
  lemma KeepsHead(subs: seq<Subscription>, id: nat)
    requires subs != [] && subs[0].id != id
    ensures Without(subs, id) == [subs[0]] + Without(subs[1..], id)
  {
  }

  /** With handles increasing, cancelling a listed handle removes exactly that one record. */
  lemma {:induction false} WithoutRemovesOne(subs: seq<Subscription>, k: nat)
    requires IdsIncreasing(subs) && k < |subs|
    ensures Without(subs, subs[k].id) == subs[..k] + subs[k + 1..]
  {
    if k == 0 {
      DropsHead(subs);
    } else {
      var tail := subs[1..];
      IncreasingTail(subs);
      KeepsHead(subs, subs[k].id);
      assert tail[k - 1] == subs[k];
      WithoutRemovesOne(tail, k - 1);
      assert subs[..k] == [subs[0]] + tail[..k - 1];
      assert subs[k + 1..] == tail[k..];
    }
  }

  /** Cancellation keeps the live list sorted by handle. */
  lemma {:induction false} WithoutIncreasing(subs: seq<Subscription>, id: nat)
    requires IdsIncreasing(subs)
    ensures IdsIncreasing(Without(subs, id))
  {
    if subs != [] {
      WithoutIncreasing(subs[1..], id);
      WithoutDrops(subs[1..], id);
      var rest := Without(subs[1..], id);
      forall s | s in rest ensures subs[0].id < s.id {
        var j :| 0 <= j < |subs[1..]| && subs[1..][j] == s;
        assert subs[j + 1] == s;
      }
    }
  }

  /** With handles increasing, every live subscription is listed once. */
  lemma {:induction false} ListedOnce(subs: seq<Subscription>, s: Subscription)
    requires IdsIncreasing(subs) && s in subs
    ensures multiset(subs)[s] == 1
  {
    var k :| 0 <= k < |subs| && subs[k] == s;
    var before, after := subs[..k], subs[k + 1..];
    assert subs == before + [s] + after;
    forall j | 0 <= j < |before| ensures before[j].id < s.id {
      assert before[j] == subs[j];
    }
    forall j | 0 <= j < |after| ensures s.id < after[j].id {
      assert after[j] == subs[k + 1 + j];
    }
    assert multiset(before)[s] == 0;
    assert multiset(after)[s] == 0;
  }

  /** One publish serves every live matching subscription exactly once, and no other. */
  lemma DeliveredOnce<P>(subs: seq<Subscription>, msg: Message<P>, s: Subscription)
    requires IdsIncreasing(subs)
    ensures multiset(Deliveries(subs, msg))[Delivery(s, msg.payload)] ==
      if s in subs && Matches(msg, s) then 1 else 0
  {
    DeliveriesCount(subs, msg, s);
    if s in subs {
      ListedOnce(subs, s);
    }
  }

  /** After a cancellation the cancelled handle is never served; every other subscription is served as before. */
  lemma CancelledNotServed<P>(subs: seq<Subscription>, id: nat, msg: Message<P>, s: Subscription)
    ensures forall d :: d in Deliveries(Without(subs, id), msg) ==> d.to.id != id
    ensures s.id != id ==>
      multiset(Deliveries(Without(subs, id), msg))[Delivery(s, msg.payload)] ==
      multiset(Deliveries(subs, msg))[Delivery(s, msg.payload)]
  {
    DeliveriesSound(Without(subs, id), msg);
    WithoutDrops(subs, id);
    DeliveriesCount(Without(subs, id), msg, s);
    DeliveriesCount(subs, msg, s);
    WithoutCount(subs, id, s);
  }

  // ---------------------------------------------------------------------------
  // The bus

  class PicoEvent<P> {
    /** How a payload's constructor is found; fixed for the life of the bus. */
    const channelOf: P -> Channel
    /** The subject's live observers, in registration order. */
    var subs: seq<Subscription>
    /** The next cancellation handle to issue. */
    var nextId: nat

    ghost predicate Valid()
      reads this
    {
      IdsIncreasing(subs) && forall i :: 0 <= i < |subs| ==> subs[i].id < nextId
    }

    constructor (channelOf: P -> Channel)
      ensures Valid()
      ensures this.channelOf == channelOf && subs == []
    {
      this.channelOf := channelOf;
      subs := [];
      nextId := 0;
    }

    /** Wraps `payload` with its channel and `targets`, and serves every matching subscription. */
    method Publish(payload: P, targets: seq<Target>) returns (ds: seq<Delivery<P>>)
      ensures ds == Deliveries(subs, Message(channelOf(payload), payload, targets))
    {
      var msg := Message(channelOf(payload), payload, targets);
      var observers := subs;
      ds := [];
      var i := 0;
      while i < |observers|
        invariant 0 <= i <= |observers|
        invariant ds == Deliveries(observers[..i], msg)
      {
        var sub := observers[i];
        assert observers[..i + 1][..i] == observers[..i];
        if Matches(msg, sub) {
          ds := ds + [Delivery(sub, msg.payload)];
        }
        i := i + 1;
      }
      assert observers[..i] == observers;
    }

    /** `publish(msg)` with its default empty target list: every subscription on the channel is served. */
    method PublishUntargeted(payload: P) returns (ds: seq<Delivery<P>>)
      ensures ds == Deliveries(subs, Message(channelOf(payload), payload, []))
      ensures forall s :: s in subs ==>
        (Delivery(s, payload) in ds <==> s.channel == Some(channelOf(payload)))
    {
      ds := Publish(payload, []);
      var msg := Message(channelOf(payload), payload, []);
      forall s | s in subs
        ensures Delivery(s, payload) in ds <==> s.channel == Some(channelOf(payload))
      {
        DeliveriesCount(subs, msg, s);
        assert Matches(msg, s) <==> s.channel == Some(channelOf(payload));
      }
    }

    /** `channelImpl`: registers a filter and returns its cancellation handle. */
    method ChannelImpl(channel: Option<Channel>, targets: seq<Target>) returns (id: nat)
      requires Valid()
      modifies this
      ensures Valid()
      ensures id == old(nextId) && nextId == id + 1
      ensures subs == old(subs) + [Subscription(id, channel, targets)]
      ensures forall i :: 0 <= i < |old(subs)| ==> old(subs)[i].id != id
    {
      id := nextId;
      subs := subs + [Subscription(id, channel, targets)];
      nextId := nextId + 1;
    }

    /** `listen`: a bare constructor registers with no targets, a params object with its own. */
    method Listen(arg: ListenArg) returns (id: nat)
      requires Valid()
      modifies this
      ensures Valid()
      ensures id == old(nextId) && nextId == id + 1
      ensures subs == old(subs) + [Subscription(id, Filter(arg).msgType, Filter(arg).targets)]
    {
      match arg {
        case WithParams(params) =>
          id := ChannelImpl(params.msgType, params.targets);
        case Bare(t) =>
          id := ChannelImpl(Some(t), []);
      }
    }

    /** Unsubscribing a handle: only that record leaves the live list. */
    method Cancel(id: nat)
      requires Valid()
      modifies this
      ensures Valid()
      ensures subs == Without(old(subs), id) && nextId == old(nextId)
    {
      WithoutIncreasing(subs, id);
      WithoutDrops(subs, id);
      subs := Without(subs, id);
    }
  }

  /** Listeners on `room-1`, on `room-2` and unfiltered: a publish to `room-1` serves only the first. */
  lemma RoomScenario(a: nat, b: nat, c: nat)
    ensures var sa := Subscription(a, Some(7), ["room-1"]);
      Deliveries([sa, Subscription(b, Some(7), ["room-2"]), Subscription(c, Some(7), [])],
                 Message(7, "ping", ["room-1"])) == [Delivery(sa, "ping")]
  {
    var sa := Subscription(a, Some(7), ["room-1"]);
    var sb := Subscription(b, Some(7), ["room-2"]);
    var sc := Subscription(c, Some(7), []);
    var msg := Message(7, "ping", ["room-1"]);
    assert Matches(msg, sa) by {
      assert "room-1" in sa.targets;
    }
    assert !Matches(msg, sb);
    EmptyFilterMissesTargeted(msg, sc);
    assert [sa, sb, sc][..2] == [sa, sb] && [sa, sb][..1] == [sa] && [sa][..0] == [];
    assert Deliveries([sa], msg) == [Delivery(sa, "ping")];
    assert Deliveries([sa, sb], msg) == [Delivery(sa, "ping")];
  }

  /** The same three listeners registered on a live bus. */
  method TargetedScenario()
  {
    var bus := new PicoEvent<string>(_ => 7);
    var a := bus.Listen(WithParams(ListenParams(Some(7), ["room-1"])));
    var b := bus.Listen(WithParams(ListenParams(Some(7), ["room-2"])));
    var c := bus.Listen(Bare(7));
    assert bus.subs == [Subscription(a, Some(7), ["room-1"]), Subscription(b, Some(7), ["room-2"]),
                        Subscription(c, Some(7), [])];
    var ds := bus.Publish("ping", ["room-1"]);
    RoomScenario(a, b, c);
    assert ds == [Delivery(Subscription(a, Some(7), ["room-1"]), "ping")];
  }

  /** A cancelled listener is not served by a later broadcast; the one still registered is. */
  method CancelScenario()
  {
    var bus := new PicoEvent<string>(_ => 7);
    var a := bus.Listen(Bare(7));
    var b := bus.Listen(Bare(7));
    var sa, sb := Subscription(a, Some(7), []), Subscription(b, Some(7), []);
    assert bus.subs == [sa, sb];
    bus.Cancel(a);
    WithoutRemovesOne([sa, sb], 0);
    assert bus.subs == [sb];
    var ds := bus.PublishUntargeted("ping");
    var msg := Message(7, "ping", []);
    assert [sb][..0] == [] && Matches(msg, sb);
    assert ds == Deliveries([sb], msg) == [Delivery(sb, "ping")];
    assert sa != sb;
  }
}
