/** Two objects of the Double Ratchet class that perform a run of the two-party protocol. */
module DoubleRatchetRuns {
  import opened Prelude
  import opened SymmetricRatchet
  import opened DoubleRatchetSteps
  import opened DoubleRatchetInPlace
  import opened DoubleRatchetProtocol

  /** A message as the sender's object hands it out. */
  datatype Message = Message(header: Header, key: Key)

  /** The objects and chains that a party's methods may change. */
  ghost function Footprint(d: DoubleRatchet): set<object>
    reads d
  {
    {d} + (if d.sendChain == null then {} else {d.sendChain}) + (if d.recvChain == null then {} else {d.recvChain})
  }

  ghost predicate Stands(d: DoubleRatchet, s: Party)
    reads d, d.sendChain, d.recvChain
  {
    d.Valid() && d.View() == s
  }

  /** The messages handed out so far are those on the network of the model. */
  ghost predicate SameNet(net: seq<Message>, w: World) {
    |net| == |w.net| && forall i :: 0 <= i < |net| ==> net[i] == Message(w.net[i].header, w.net[i].key)
  }

  /** One party's object sends. */
  method SendFrom(p: Primitives, d: DoubleRatchet, ghost w: World, who: Role, x: Secret, net: seq<Message>)
    returns (after: seq<Message>)
    requires Inv(p, w) && PartyOf(w, who).sent < MAX_MESSAGES_PER_CHAIN && SameNet(net, w)
    requires Stands(d, PartyOf(w, who))
    modifies d, d.sendChain
    ensures Stands(d, PartyOf(SendStep(p, w, who, x), who)) && SameNet(after, SendStep(p, w, who, x))
    ensures fresh(Footprint(d) - old(Footprint(d)))
  {
    hide Inv, Encrypt;
    EpochInRange(p, w, who);
    var r := d.RatchetEncrypt(p, x);
    match r
    case Err(_) =>
      after := net;
    case Ok((header, keys)) =>
      after := net + [Message(header, keys.key)];
  }

  lemma ReceiverState(p: Primitives, w: World, who: Role, h: Header, x: Secret)
    ensures PartyOf(DeliverStep(p, w, who, h, x), who) == Receive(p, w, who, h, x).state
  {
    hide Decrypt;
  }

  /** One party's object receives message `i` of the network. */
  method DeliverTo(p: Primitives, d: DoubleRatchet, ghost w: World, who: Role, i: nat, x: Secret, net: seq<Message>)
    returns (r: Result<MessageKeys, RatchetError>)
    requires i < |w.net| && SameNet(net, w) && WithinBounds(PartyOf(w, who), w.net[i].header)
    requires Stands(d, PartyOf(w, who))
    modifies d, d.recvChain
    ensures r == Receive(p, w, who, w.net[i].header, x).result
    ensures Stands(d, PartyOf(DeliverStep(p, w, who, w.net[i].header, x), who))
    ensures fresh(Footprint(d) - old(Footprint(d)))
  {
    hide Decrypt, DeliverStep, WithinBounds, Matches, SkipsOld, SkipsNew, DecryptsTo;
    ReceiverState(p, w, who, w.net[i].header, x);
    r := d.RatchetDecrypt(p, net[i].header, x);
  }

  /** `d` stands for a party and `other` for its peer, and they share nothing. */
  ghost predicate Pair(d: DoubleRatchet, s: Party, other: DoubleRatchet, t: Party)
    reads d, d.sendChain, d.recvChain, other, other.sendChain, other.recvChain
  {
    Stands(d, s) && Stands(other, t) && Footprint(d) !! Footprint(other)
  }

  method SendBeside(p: Primitives, d: DoubleRatchet, other: DoubleRatchet, ghost w: World, who: Role, x: Secret,
                    net: seq<Message>) returns (after: seq<Message>)
    requires Inv(p, w) && PartyOf(w, who).sent < MAX_MESSAGES_PER_CHAIN && SameNet(net, w)
    requires Pair(d, PartyOf(w, who), other, PartyOf(w, Other(who)))
    modifies Footprint(d)
    ensures Pair(d, PartyOf(SendStep(p, w, who, x), who), other, PartyOf(w, Other(who)))
    ensures SameNet(after, SendStep(p, w, who, x)) && Footprint(other) == old(Footprint(other))
    ensures fresh(Footprint(d) - old(Footprint(d)))
  {
    hide Inv, SendStep, Stands, SameNet;
    after := SendFrom(p, d, w, who, x, net);
  }

  method DeliverBeside(p: Primitives, d: DoubleRatchet, other: DoubleRatchet, ghost w: World, who: Role, i: nat,
                       x: Secret, net: seq<Message>) returns (r: Result<MessageKeys, RatchetError>)
    requires i < |w.net| && SameNet(net, w) && WithinBounds(PartyOf(w, who), w.net[i].header)
    requires Pair(d, PartyOf(w, who), other, PartyOf(w, Other(who)))
    modifies Footprint(d)
    ensures r == Receive(p, w, who, w.net[i].header, x).result
    ensures Pair(d, PartyOf(DeliverStep(p, w, who, w.net[i].header, x), who), other, PartyOf(w, Other(who)))
    ensures Footprint(other) == old(Footprint(other)) && fresh(Footprint(d) - old(Footprint(d)))
  {
    hide DeliverStep, Receive, Stands, SameNet, WithinBounds;
    r := DeliverTo(p, d, w, who, i, x, net);
  }

  /** Both objects stand for the parties of the world, and share nothing. */
  ghost predicate Both(alice: DoubleRatchet, bob: DoubleRatchet, w: World)
    reads alice, alice.sendChain, alice.recvChain, bob, bob.sendChain, bob.recvChain
  {
    Pair(alice, w.alice, bob, w.bob) && Pair(bob, w.bob, alice, w.alice)
  }

  /** One action of the protocol, by the object of the party that acts. */
  method Act(p: Primitives, alice: DoubleRatchet, bob: DoubleRatchet, ghost w: World, a: Action, net: seq<Message>)
    returns (after: seq<Message>, r: Option<Result<MessageKeys, RatchetError>>)
    requires Inv(p, w) && Enabled(p, w, a) && SameNet(net, w) && Both(alice, bob, w)
    modifies Footprint(alice), Footprint(bob)
    ensures Both(alice, bob, Step(p, w, a)) && SameNet(after, Step(p, w, a))
    ensures fresh(Footprint(alice) - old(Footprint(alice))) && fresh(Footprint(bob) - old(Footprint(bob)))
    ensures r == if a.Deliver? then Some(Receive(p, w, a.who, w.net[a.index].header, a.fresh_).result) else None
  {
    hide Inv, SendStep, DeliverStep, Receive, Footprint, Pair, WithinBounds;
    OtherStays(p, w, a);
    match a
    case Send(who, x) =>
      r := None;
      if who == Alice {
        after := SendBeside(p, alice, bob, w, who, x, net);
      } else {
        after := SendBeside(p, bob, alice, w, who, x, net);
      }
      PairFlips(alice, bob, Step(p, w, a));
    case Deliver(who, i, x) =>
      after := net;
      var got: Result<MessageKeys, RatchetError>;
      if who == Alice {
        got := DeliverBeside(p, alice, bob, w, who, i, x, net);
      } else {
        got := DeliverBeside(p, bob, alice, w, who, i, x, net);
      }
      PairFlips(alice, bob, Step(p, w, a));
      r := Some(got);
  }

  lemma PairFlips(alice: DoubleRatchet, bob: DoubleRatchet, w: World)
    requires Pair(alice, w.alice, bob, w.bob) || Pair(bob, w.bob, alice, w.alice)
    ensures Both(alice, bob, w)
  {
    hide Stands;
  }

  /** A step changes only the party that acts, and a delivery sends nothing. */
  lemma OtherStays(p: Primitives, w: World, a: Action)
    requires Enabled(p, w, a)
    ensures PartyOf(Step(p, w, a), Other(a.who)) == PartyOf(w, Other(a.who))
    ensures a.Deliver? ==> Step(p, w, a).net == w.net
  {
    hide Encrypt, Decrypt, WithinBounds, Deliverable;
  }

  lemma RunOne(p: Primitives, w: World, actions: seq<Action>)
    requires ValidRun(p, w, actions) && actions != []
    ensures Enabled(p, w, actions[0]) && ValidRun(p, Step(p, w, actions[0]), actions[1..])
    ensures After(p, w, actions) == After(p, Step(p, w, actions[0]), actions[1..])
  {
    hide Enabled, Step;
  }

  lemma RunDone(p: Primitives, w: World)
    ensures ValidRun(p, w, []) && After(p, w, []) == w
  {
  }

  /** A first delivery agrees with the sender; what is delivered is recorded. */
  lemma DeliveryIs(p: Primitives, w: World, a: Action)
    requires Commutes(p) && Inv(p, w) && Enabled(p, w, a) && a.Deliver?
    ensures a.index < |w.net|
    ensures var m := w.net[a.index];
            var r := Receive(p, w, a.who, m.header, a.fresh_).result;
            && (Id(m.header) !in w.delivered ==> r == Ok(MessageKeys(m.key, m.header.number)))
            && Step(p, w, a).delivered == w.delivered + if r.Ok? then {Id(m.header)} else {}
  {
    hide Inv, Decrypt, WithinBounds, FreshSecret;
    DeliveryAgrees(p, w, a.who, a.index, a.fresh_);
    BoundsAllowIt(PartyOf(w, a.who), w.net[a.index].header);
  }

  lemma SendDelivers(p: Primitives, w: World, a: Action)
    requires Enabled(p, w, a) && a.Send?
    ensures Step(p, w, a).delivered == w.delivered
  {
    hide Encrypt;
  }

  /** The two objects before anything is sent. */
  method Create(p: Primitives, root: Key, bobSecret: Secret, aliceSecret: Secret)
    returns (alice: DoubleRatchet, bob: DoubleRatchet)
    ensures Both(alice, bob, InitialWorld(p, root, bobSecret, aliceSecret))
    ensures fresh(Footprint(alice)) && fresh(Footprint(bob))
  {
    alice := new DoubleRatchet.Alice(p, root, p.publicOf(bobSecret), aliceSecret);
    bob := new DoubleRatchet.Bob(p, root, bobSecret);
  }

  /** What a driver keeps beside the objects: the messages handed out and the headers decrypted. */
  datatype Traffic = Traffic(net: seq<Message>, delivered: set<KeyId>)

  ghost predicate Kept(t: Traffic, w: World) {
    SameNet(t.net, w) && t.delivered == w.delivered
  }

  /** One action, and whether a first delivery gave the key that the sender's object handed out. */
  method ActAndCompare(p: Primitives, alice: DoubleRatchet, bob: DoubleRatchet, ghost w: World, a: Action, t: Traffic)
    returns (after: Traffic, agreed: bool)
    requires Commutes(p) && Inv(p, w) && Enabled(p, w, a) && Kept(t, w) && Both(alice, bob, w)
    modifies Footprint(alice), Footprint(bob)
    ensures Both(alice, bob, Step(p, w, a)) && Kept(after, Step(p, w, a)) && agreed
    ensures fresh(Footprint(alice) - old(Footprint(alice))) && fresh(Footprint(bob) - old(Footprint(bob)))
  {
    hide Inv, Enabled, Step, Commutes, Receive, Both, Footprint;
    var net, r := Act(p, alice, bob, w, a, t.net);
    if a.Deliver? {
      DeliveryIs(p, w, a);
      var m := t.net[a.index];
      agreed := Id(m.header) !in t.delivered ==> r == Some(Ok(MessageKeys(m.key, m.header.number)));
      after := Traffic(net, t.delivered + if r.value.Ok? then {Id(m.header)} else {});
    } else {
      SendDelivers(p, w, a);
      agreed := true;
      after := Traffic(net, t.delivered);
    }
  }

  /**
   * Two new objects perform any run within the bounds: they end in the states of the model, and every message
   * that is delivered for the first time gives the key that the sender's object handed out.
   */
  method Perform(p: Primitives, root: Key, bobSecret: Secret, aliceSecret: Secret, actions: seq<Action>)
    returns (alice: DoubleRatchet, bob: DoubleRatchet, agreed: bool)
    requires Commutes(p) && p.publicOf(bobSecret) != p.publicOf(aliceSecret)
    requires ValidRun(p, InitialWorld(p, root, bobSecret, aliceSecret), actions)
    ensures var w := After(p, InitialWorld(p, root, bobSecret, aliceSecret), actions);
            alice.View() == w.alice && bob.View() == w.bob
    ensures agreed
  {
    hide Inv, ValidRun, After, Enabled, Step, Commutes, Footprint;
    ghost var w0 := InitialWorld(p, root, bobSecret, aliceSecret);
    ghost var w := w0;
    alice, bob := Create(p, root, bobSecret, aliceSecret);
    InitialInv(p, root, bobSecret, aliceSecret);
    var t := Traffic([], {});
    agreed := true;
    for k := 0 to |actions|
      invariant Inv(p, w) && ValidRun(p, w, actions[k..]) && After(p, w, actions[k..]) == After(p, w0, actions)
      invariant Both(alice, bob, w) && Kept(t, w) && agreed
      invariant forall o :: o in Footprint(alice) ==> fresh(o)
      invariant forall o :: o in Footprint(bob) ==> fresh(o)
    {
      assert actions[k..][0] == actions[k] && actions[k..][1..] == actions[k + 1..];
      RunOne(p, w, actions[k..]);
      StepKeepsInv(p, w, actions[k]);
      ghost var a, b := Footprint(alice), Footprint(bob);
      label BEFORE:
      var same: bool;
      t, same := ActAndCompare(p, alice, bob, w, actions[k], t);
      assert forall o :: o in Footprint(alice) ==> o in a || fresh@BEFORE(o);
      assert forall o :: o in Footprint(bob) ==> o in b || fresh@BEFORE(o);
      agreed := agreed && same;
      w := Step(p, w, actions[k]);
    }
    RunDone(p, w);
    assert actions[|actions|..] == [];
  }
}
