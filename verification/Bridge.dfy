/** The TCP bridge: two copy loops, each of which closes the write side of its destination when its source
    is exhausted (half-close, section 3.6.1 of RFC 9293). Their steps interleave freely. */
module Bridge {

  type Byte = bv8

  datatype Phase = Copying | Closing | Finished

  /** One direction: what its source peer has sent and whether it has hung up, how much of it the loop has
      read, what the loop holds between a read and the writes that follow, what its destination has received,
      whether the destination's write side was closed, and whether reads from the source have been cut off. */
  datatype Lane = Lane(sent: seq<Byte>, eof: bool, taken: nat, held: seq<Byte>, delivered: seq<Byte>, phase: Phase,
                       closed: bool, expired: bool)

  datatype Side = Up | Down

  /** halfUp and halfDown: the destination of that lane supports CloseWrite. */
  datatype Bridge = Bridge(up: Lane, down: Lane, halfUp: bool, halfDown: bool, released: bool)

  /** The first two are the source peer's, the others the copy loop's. */
  datatype Act = Send(bytes: seq<Byte>) | HangUp | Read(n: nat) | Write(n: nat) | SeeEOF | Timeout | CloseWrite

  datatype Event = On(d: Side, act: Act) | Release

  function Of(b: Bridge, d: Side): Lane {
    if d == Up then b.up else b.down
  }

  function Opposite(d: Side): Side {
    if d == Up then Down else Up
  }

  predicate Half(b: Bridge, d: Side) {
    if d == Up then b.halfUp else b.halfDown
  }

  predicate CanAct(l: Lane, a: Act) {
    match a
    case Send(_) | HangUp => !l.eof
    case Read(n) => l.phase == Copying && l.held == [] && !l.expired && 0 < n && l.taken + n <= |l.sent|
    case Write(n) => 0 < n <= |l.held|
    case SeeEOF => l.phase == Copying && l.held == [] && !l.expired && l.eof && l.taken == |l.sent|
    case Timeout => l.phase == Copying && l.held == [] && l.expired
    case CloseWrite => l.phase == Closing
  }

  function Moved(l: Lane, a: Act, half: bool): Lane
    requires CanAct(l, a)
  {
    match a
    case Send(bytes) => l.(sent := l.sent + bytes)
    case HangUp => l.(eof := true)
    case Read(n) => l.(taken := l.taken + n, held := l.sent[l.taken..l.taken + n])
    case Write(n) => l.(held := l.held[n..], delivered := l.delivered + l.held[..n])
    case SeeEOF | Timeout => l.(phase := Closing)
    case CloseWrite => l.(phase := Finished, closed := half)
  }

  predicate Enabled(b: Bridge, e: Event) {
    match e
    case On(d, a) => CanAct(Of(b, d), a)
    case Release => b.up.phase == Finished && b.down.phase == Finished && !b.released
  }

  /** The close of a connection that cannot half-close falls back to a deadline that has already passed. It
      stops reads from that connection, which is the opposite lane's source. */
  predicate Cuts(b: Bridge, e: Event) {
    e.On? && e.act.CloseWrite? && !Half(b, e.d)
  }

  function Apply(b: Bridge, e: Event): Bridge
    requires Enabled(b, e)
  {
    match e
    case On(Up, a) =>
      b.(up := Moved(b.up, a, b.halfUp), down := if Cuts(b, e) then b.down.(expired := true) else b.down)
    case On(Down, a) =>
      b.(down := Moved(b.down, a, b.halfDown), up := if Cuts(b, e) then b.up.(expired := true) else b.up)
    case Release => b.(released := true)
  }

  predicate FromPeer(e: Event) {
    e.On? && (e.act.Send? || e.act.HangUp?)
  }

  /** Nothing is lost, duplicated or reordered, and a lane stops only at the end of its source or at a
      deadline. */
  predicate GoodLane(l: Lane) {
    && l.taken <= |l.sent|
    && l.delivered + l.held == l.sent[..l.taken]
    && (l.phase != Copying ==> l.held == [] && (l.expired || (l.eof && l.taken == |l.sent|)))
    && (l.closed ==> l.phase == Finished)
  }

  predicate Good(b: Bridge) {
    && GoodLane(b.up) && GoodLane(b.down)
    && (b.released ==> b.up.phase == Finished && b.down.phase == Finished)
    && (b.up.closed <==> b.halfUp && b.up.phase == Finished)
    && (b.down.closed <==> b.halfDown && b.down.phase == Finished)
    && (b.down.expired <==> !b.halfUp && b.up.phase == Finished)
    && (b.up.expired <==> !b.halfDown && b.down.phase == Finished)
  }

  function FreshLane(): Lane {
    Lane([], false, 0, [], [], Copying, false, false)
  }

  function Opened(halfUp: bool, halfDown: bool): Bridge {
    Bridge(FreshLane(), FreshLane(), halfUp, halfDown, false)
  }

  lemma ActKeepsGoodLane(l: Lane, a: Act, half: bool)
    requires GoodLane(l) && CanAct(l, a)
    ensures var l' := Moved(l, a, half);
            && GoodLane(l') && l'.expired == l.expired
            && (l.phase == Finished ==> l'.phase == Finished && l'.closed == l.closed)
            && (l'.phase == Finished && l.phase != Finished ==> l'.closed == half && a.CloseWrite?)
            && (a.CloseWrite? ==> l'.phase == Finished)
            && (l'.closed ==> l'.phase == Finished)
  {
    match a
    case Send(bytes) => assert (l.sent + bytes)[..l.taken] == l.sent[..l.taken];
    case Read(n) =>
      assert l.delivered == l.delivered + l.held;
      assert l.sent[..l.taken] + l.sent[l.taken..l.taken + n] == l.sent[..l.taken + n];
    case Write(n) => assert l.delivered + l.held[..n] + l.held[n..] == l.delivered + l.held;
    case _ =>
  }

  lemma CutKeepsGoodLane(l: Lane)
    requires GoodLane(l)
    ensures GoodLane(l.(expired := true))
  {
  }

  lemma StepKeepsGood(b: Bridge, e: Event)
    requires Good(b) && Enabled(b, e)
    ensures Good(Apply(b, e)) && Apply(b, e).halfUp == b.halfUp && Apply(b, e).halfDown == b.halfDown
  {
    hide CanAct, Moved, GoodLane;
    if e.On? {
      ActKeepsGoodLane(Of(b, e.d), e.act, Half(b, e.d));
      CutKeepsGoodLane(Of(b, Opposite(e.d)));
    }
  }

  ghost predicate IsRun(bs: seq<Bridge>, es: seq<Event>) {
    |bs| == |es| + 1 && forall i :: 0 <= i < |es| ==> Enabled(bs[i], es[i]) && bs[i + 1] == Apply(bs[i], es[i])
  }

  lemma {:induction false} RunKeepsGood(bs: seq<Bridge>, es: seq<Event>, i: nat)
    requires IsRun(bs, es) && Good(bs[0]) && i < |bs|
    ensures Good(bs[i]) && bs[i].halfUp == bs[0].halfUp && bs[i].halfDown == bs[0].halfDown
  {
    hide Good, Apply, Enabled;
    if i > 0 {
      RunKeepsGood(bs, es, i - 1);
      StepKeepsGood(bs[i - 1], es[i - 1]);
    }
  }

  lemma RunTail(bs: seq<Bridge>, es: seq<Event>)
    requires IsRun(bs, es) && es != []
    ensures IsRun(bs[1..], es[1..]) && Enabled(bs[0], es[0]) && bs[1] == Apply(bs[0], es[0])
  {
    hide Apply, Enabled;
    forall i | 0 <= i < |es[1..]|
      ensures Enabled(bs[1..][i], es[1..][i]) && bs[1..][i + 1] == Apply(bs[1..][i], es[1..][i])
    {
      assert Enabled(bs[i + 1], es[i + 1]) && bs[i + 2] == Apply(bs[i + 1], es[i + 1]);
    }
  }

  /** In every state of every run of a bridge between connections that support CloseWrite, what a destination
      has received is a prefix of what its source sent, and its write side is closed exactly when the loop of
      that lane is done, which is only once the source has ended and everything has arrived. */
  lemma DeliveryIsFaithful(bs: seq<Bridge>, es: seq<Event>, i: nat, d: Side)
    requires IsRun(bs, es) && bs[0] == Opened(true, true) && i < |bs|
    ensures Of(bs[i], d).delivered <= Of(bs[i], d).sent
    ensures Of(bs[i], d).closed <==> Of(bs[i], d).phase == Finished
    ensures Of(bs[i], d).closed ==> Of(bs[i], d).eof && Of(bs[i], d).delivered == Of(bs[i], d).sent
    ensures bs[i].released ==> bs[i].up.delivered == bs[i].up.sent && bs[i].down.delivered == bs[i].down.sent
  {
    RunKeepsGood(bs, es, i);
    LaneFacts(bs[i].up);
    LaneFacts(bs[i].down);
  }

  /** Whatever the connections support: a write side is closed exactly when its lane is done and the connection can
      half-close; where it cannot, the other lane is cut off exactly when this one is done. */
  lemma CloseIsExact(bs: seq<Bridge>, es: seq<Event>, i: nat, d: Side)
    requires IsRun(bs, es) && bs[0] == Opened(bs[0].halfUp, bs[0].halfDown) && i < |bs|
    ensures Of(bs[i], d).closed <==> Half(bs[0], d) && Of(bs[i], d).phase == Finished
    ensures Of(bs[i], Opposite(d)).expired <==> !Half(bs[0], d) && Of(bs[i], d).phase == Finished
  {
    RunKeepsGood(bs, es, i);
  }

  lemma LaneFacts(l: Lane)
    requires GoodLane(l)
    ensures l.delivered <= l.sent
    ensures l.phase != Copying && !l.expired ==> l.eof && l.delivered == l.sent
  {
    assert l.delivered <= l.delivered + l.held <= l.sent;
    assert l.delivered + [] == l.delivered;
    assert l.taken == |l.sent| ==> l.sent[..l.taken] == l.sent;
  }

  /** A step of one lane, its close included, leaves the other lane as it was if and only if it does not cut
      that lane off; in particular, between connections that half-close no step does. */
  lemma LanesIndependent(b: Bridge, e: Event)
    requires Good(b) && Enabled(b, e) && e.On?
    ensures var other := Opposite(e.d);
            && (Of(Apply(b, e), other) == Of(b, other) <==> Cuts(b, e) ==> Of(b, other).expired)
            && (b.halfUp && b.halfDown ==> Of(Apply(b, e), other) == Of(b, other))
  {
  }

  function Rank(p: Phase): nat {
    match p
    case Copying => 2
    case Closing => 1
    case Finished => 0
  }

  function LaneWork(l: Lane): nat
    requires l.taken <= |l.sent|
  {
    2 * (|l.sent| - l.taken) + |l.held| + Rank(l.phase)
  }

  /** What the bridge still has to do with what has been sent so far. */
  function Work(b: Bridge): nat
    requires b.up.taken <= |b.up.sent| && b.down.taken <= |b.down.sent|
  {
    LaneWork(b.up) + LaneWork(b.down) + if b.released then 0 else 1
  }

  lemma ActShrinks(l: Lane, a: Act, half: bool)
    requires GoodLane(l) && CanAct(l, a) && !a.Send? && !a.HangUp?
    ensures var l' := Moved(l, a, half);
            l'.taken <= |l'.sent| && LaneWork(l') < LaneWork(l)
  {
  }

  /** Every step of the bridge itself makes the remaining work smaller. */
  lemma WorkShrinks(b: Bridge, e: Event)
    requires Good(b) && Enabled(b, e) && !FromPeer(e)
    ensures Good(Apply(b, e)) && Work(Apply(b, e)) < Work(b)
  {
    hide CanAct, Moved, LaneWork, Good, GoodLane;
    StepKeepsGood(b, e);
    Bounds(b);
    Bounds(Apply(b, e));
    if e.On? {
      GoodLanes(b);
      ActShrinks(Of(b, e.d), e.act, Half(b, e.d));
      CutKeepsWork(Of(b, Opposite(e.d)));
    }
  }

  lemma GoodLanes(b: Bridge)
    requires Good(b)
    ensures GoodLane(b.up) && GoodLane(b.down)
  {
  }

  lemma Bounds(b: Bridge)
    requires Good(b)
    ensures b.up.taken <= |b.up.sent| && b.down.taken <= |b.down.sent|
  {
  }

  lemma CutKeepsWork(l: Lane)
    requires l.taken <= |l.sent|
    ensures LaneWork(l.(expired := true)) == LaneWork(l)
  {
  }

  /** The bridge can take no step of its own. */
  ghost predicate Quiescent(b: Bridge) {
    forall e :: Enabled(b, e) ==> FromPeer(e)
  }

  lemma LaneMoves(b: Bridge, d: Side)
    requires Good(b) && Of(b, d).eof && Of(b, d).phase != Finished
    ensures !Quiescent(b)
  {
    var l := Of(b, d);
    var a := if l.phase == Closing then CloseWrite
             else if l.held != [] then Write(1)
             else if l.expired then Timeout
             else if l.taken == |l.sent| then SeeEOF
             else Read(1);
    assert Enabled(b, On(d, a)) && !FromPeer(On(d, a));
  }

  /** Once both peers have hung up, the bridge comes to rest exactly when it has been released, which is when
      both directions are done. */
  lemma RestsWhenDone(b: Bridge)
    requires Good(b) && b.up.eof && b.down.eof
    ensures Quiescent(b) <==> b.released
    ensures b.released ==> b.up.phase == Finished && b.down.phase == Finished
  {
    if b.up.phase != Finished {
      LaneMoves(b, Up);
    } else if b.down.phase != Finished {
      LaneMoves(b, Down);
    } else if !b.released {
      assert Enabled(b, Release) && !FromPeer(Release);
    }
  }

  /** The bridge's own steps of a run, and the bytes its peers sent in it. */
  function OwnSteps(es: seq<Event>): nat {
    if es == [] then 0 else OwnSteps(es[1..]) + if FromPeer(es[0]) then 0 else 1
  }

  function BytesSent(es: seq<Event>): nat {
    if es == [] then 0
    else BytesSent(es[1..]) + if es[0].On? && es[0].act.Send? then |es[0].act.bytes| else 0
  }

  lemma ActBringsWork(l: Lane, a: Act, half: bool)
    requires GoodLane(l) && CanAct(l, a) && (a.Send? || a.HangUp?)
    ensures var l' := Moved(l, a, half);
            l'.taken <= |l'.sent| && LaneWork(l') == LaneWork(l) + if a.Send? then 2 * |a.bytes| else 0
  {
  }

  /** A peer adds two units of work for each byte it sends. */
  lemma PeerBringsWork(b: Bridge, e: Event)
    requires Good(b) && Enabled(b, e) && FromPeer(e)
    ensures Good(Apply(b, e)) && Work(Apply(b, e)) == Work(b) + 2 * BytesSent([e])
  {
    hide CanAct, Moved, LaneWork, Good, GoodLane;
    StepKeepsGood(b, e);
    Bounds(b);
    Bounds(Apply(b, e));
    GoodLanes(b);
    ActBringsWork(Of(b, e.d), e.act, Half(b, e.d));
    assert BytesSent([e]) == if e.act.Send? then |e.act.bytes| else 0;
  }

  /** Over every run, however the steps of the bridge and of its peers mix, the bridge takes no more steps than it
      had work, plus two for each byte sent meanwhile, less the work that is left. */
  lemma {:induction false} RunIsBounded(bs: seq<Bridge>, es: seq<Event>)
    requires IsRun(bs, es) && Good(bs[0])
    ensures Good(bs[|es|]) && OwnSteps(es) + Work(bs[|es|]) <= Work(bs[0]) + 2 * BytesSent(es)
    decreases |es|
  {
    hide Apply, Enabled, Good, Work;
    if es != [] {
      RunTail(bs, es);
      StepKeepsGood(bs[0], es[0]);
      RunIsBounded(bs[1..], es[1..]);
      assert bs[1..][|es[1..]|] == bs[|es|];
      if FromPeer(es[0]) {
        PeerBringsWork(bs[0], es[0]);
        assert BytesSent(es) == BytesSent(es[1..]) + BytesSent([es[0]]);
      } else {
        WorkShrinks(bs[0], es[0]);
      }
    }
  }

  /** So a run in which the peers send only so much has an end: where the bridge can take no step once both peers
      have hung up, it is released, has delivered both streams whole and closed both write sides. Conversely it is
      released only then. */
  lemma EveryRunEnds(bs: seq<Bridge>, es: seq<Event>)
    requires IsRun(bs, es) && bs[0] == Opened(true, true)
    ensures OwnSteps(es) <= 5 + 2 * BytesSent(es)
    ensures var b := bs[|es|];
            && (b.up.eof && b.down.eof ==> (Quiescent(b) <==> b.released))
            && (b.released ==>
                  && b.up.eof && b.down.eof && b.up.closed && b.down.closed
                  && b.up.delivered == b.up.sent && b.down.delivered == b.down.sent)
  {
    RunIsBounded(bs, es);
    RunKeepsGood(bs, es, |es|);
    var b := bs[|es|];
    LaneFacts(b.up);
    LaneFacts(b.down);
    hide Quiescent, GoodLane, Moved, CanAct;
    if b.up.eof && b.down.eof {
      RestsWhenDone(b);
    }
  }

  /** From an expired deadline on, a lane reads nothing more. */
  lemma {:induction false} DeadlineCuts(bs: seq<Bridge>, es: seq<Event>, d: Side)
    requires IsRun(bs, es) && Of(bs[0], d).expired
    ensures var l0, l := Of(bs[0], d), Of(bs[|es|], d);
            l.expired && l.taken == l0.taken && l0.sent <= l.sent
    decreases |es|
  {
    if es != [] {
      RunTail(bs, es);
      DeadlineCuts(bs[1..], es[1..], d);
      assert bs[1..][|es[1..]|] == bs[|es|];
    }
  }

  /** Without half-close the bridge can lose data: after such a close a run delivers the opposite stream whole
      exactly when the loop had already read all that its peer had sent or will send, and has written it out. */
  lemma WithoutHalfCloseBytesAreLost(bs: seq<Bridge>, es: seq<Event>, d: Side)
    requires IsRun(bs, es) && es != [] && Good(bs[0]) && es[0] == On(d, CloseWrite) && !Half(bs[0], d)
    ensures var l0, l := Of(bs[0], Opposite(d)), Of(bs[|es|], Opposite(d));
            && l0.taken <= |l.sent| && l.delivered <= l.sent[..l0.taken]
            && (l.delivered == l.sent <==> l.held == [] && l.sent == l0.sent && l0.taken == |l0.sent|)
  {
    RunTail(bs, es);
    DeadlineCuts(bs[1..], es[1..], Opposite(d));
    assert bs[1..][|es[1..]|] == bs[|es|];
    RunKeepsGood(bs, es, |es|);
    ghost var l0, l := Of(bs[0], Opposite(d)), Of(bs[|es|], Opposite(d));
    GoodLanes(bs[|es|]);
    Bounds(bs[0]);
    DeliveredWhole(l0, l);
  }

  lemma DeliveredWhole(l0: Lane, l: Lane)
    requires GoodLane(l) && l.taken == l0.taken && l0.sent <= l.sent && l0.taken <= |l0.sent|
    ensures l0.taken <= |l.sent| && l.delivered <= l.sent[..l0.taken]
    ensures l.delivered == l.sent <==> l.held == [] && l.sent == l0.sent && l0.taken == |l0.sent|
  {
    assert l.sent[..l.taken] == l.delivered + l.held;
    assert |l.delivered| + |l.held| == l.taken <= |l0.sent| <= |l.sent|;
    if l.delivered == l.sent {
      assert l0.sent == l.sent[..|l0.sent|] == l.sent;
    }
    if l.held == [] && l.sent == l0.sent && l0.taken == |l0.sent| {
      assert l.sent[..l.taken] == l.sent && l.delivered + [] == l.delivered;
    }
  }

  /** One peer sends a byte; the other hangs up first, and its lane closes towards a connection without half-close. */
  function LosingEvents(): seq<Event> {
    [On(Down, Send([7])), On(Up, HangUp), On(Up, SeeEOF), On(Up, CloseWrite), On(Down, Timeout), On(Down, CloseWrite),
     Release]
  }

  /** Some run leads from b by these events to b'. */
  ghost predicate Leads(b: Bridge, es: seq<Event>, b': Bridge) {
    exists bs: seq<Bridge> :: IsRun(bs, es) && bs[0] == b && bs[|es|] == b'
  }

  lemma LeadsNowhere(b: Bridge)
    ensures Leads(b, [], b)
  {
    assert IsRun([b], []);
  }

  lemma LeadsOn(b: Bridge, es: seq<Event>, b': Bridge, e: Event)
    requires Leads(b, es, b') && Enabled(b', e)
    ensures Leads(b, es + [e], Apply(b', e))
  {
    hide Apply, Enabled;
    var bs: seq<Bridge> :| IsRun(bs, es) && bs[0] == b && bs[|es|] == b';
    assert IsRun(bs + [Apply(b', e)], es + [e]);
  }

  /** A whole run that loses this byte: the bridge is released and has not delivered it. */
  lemma LosingRun(halfDown: bool)
    ensures exists b :: Leads(Opened(false, halfDown), LosingEvents(), b) && b.released && b.down.sent == [7] &&
                        b.down.delivered == []
  {
    hide Apply, Enabled, Leads;
    var f := FreshLane();
    var u, d := f.(eof := true), f.(sent := [7]);
    var b0 := Opened(false, halfDown);
    var b1 := Bridge(f, d, false, halfDown, false);
    var b2 := Bridge(u, d, false, halfDown, false);
    var b3 := Bridge(u.(phase := Closing), d, false, halfDown, false);
    var b4 := Bridge(u.(phase := Finished), d.(expired := true), false, halfDown, false);
    var b5 := Bridge(u.(phase := Finished), d.(expired := true, phase := Closing), false, halfDown, false);
    var u' := if halfDown then u.(phase := Finished) else u.(phase := Finished, expired := true);
    var b6 := Bridge(u', d.(expired := true, phase := Finished, closed := halfDown), false, halfDown, false);
    FirstSteps(b0, b1, b2, b3, b4);
    LastSteps(b4, b5, b6);
    LeadsNowhere(b0);
    var e0, e1, e2, e3 := On(Down, Send([7])), On(Up, HangUp), On(Up, SeeEOF), On(Up, CloseWrite);
    var e4, e5 := On(Down, Timeout), On(Down, CloseWrite);
    LeadsOn(b0, [], b0, e0);
    LeadsOn(b0, [] + [e0], b1, e1);
    LeadsOn(b0, [] + [e0] + [e1], b2, e2);
    LeadsOn(b0, [] + [e0] + [e1] + [e2], b3, e3);
    LeadsOn(b0, [] + [e0] + [e1] + [e2] + [e3], b4, e4);
    LeadsOn(b0, [] + [e0] + [e1] + [e2] + [e3] + [e4], b5, e5);
    LeadsOn(b0, [] + [e0] + [e1] + [e2] + [e3] + [e4] + [e5], b6, Release);
    assert [] + [e0] + [e1] + [e2] + [e3] + [e4] + [e5] + [Release] == LosingEvents();
  }

  lemma FirstSteps(b0: Bridge, b1: Bridge, b2: Bridge, b3: Bridge, b4: Bridge)
    requires b0 == Opened(false, b0.halfDown) && b1 == b0.(down := b0.down.(sent := [7])) &&
             b2 == b1.(up := b1.up.(eof := true))
    requires b3 == b2.(up := b2.up.(phase := Closing))
    requires b4 == b3.(up := b3.up.(phase := Finished), down := b3.down.(expired := true))
    ensures Enabled(b0, On(Down, Send([7]))) && b1 == Apply(b0, On(Down, Send([7])))
    ensures Enabled(b1, On(Up, HangUp)) && b2 == Apply(b1, On(Up, HangUp))
    ensures Enabled(b2, On(Up, SeeEOF)) && b3 == Apply(b2, On(Up, SeeEOF))
    ensures Enabled(b3, On(Up, CloseWrite)) && b4 == Apply(b3, On(Up, CloseWrite))
  {
    assert [] + [7] == [7];
  }

  lemma LastSteps(b4: Bridge, b5: Bridge, b6: Bridge)
    requires b4.up.phase == Finished && b4.down.phase == Copying && b4.down.held == [] && b4.down.expired &&
             !b4.released
    requires b5 == b4.(down := b4.down.(phase := Closing))
    requires b6 == b5.(down := b5.down.(phase := Finished, closed := b5.halfDown),
                       up := if b5.halfDown then b5.up else b5.up.(expired := true))
    ensures Enabled(b4, On(Down, Timeout)) && b5 == Apply(b4, On(Down, Timeout))
    ensures Enabled(b5, On(Down, CloseWrite)) && b6 == Apply(b5, On(Down, CloseWrite))
    ensures Enabled(b6, Release) && b6.(released := true) == Apply(b6, Release)
  {
  }
}
