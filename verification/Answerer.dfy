/**
 The answering side of a negotiation: offer, remote description, answer, local description, send, with remote
 candidates held back until the remote description is applied. What happens is logged; a monitor that knows
 only the protocol reads the log.
 */
module Answerer {

  import opened Base

  /** `parses` is whether the candidate text can be turned into a candidate object. */
  datatype Candidate = Candidate(mid: string, mlineIndex: int, text: string, parses: bool)

  // ---- the log and its monitor -----------------------------------------------------------------

  datatype Event =
    | OfferIn(offer: nat)
    | RemoteSet(offer: nat)
    | RemoteFailed(offer: nat)
    | AnswerMade(offer: nat, sdp: string)
    | LocalSet(offer: nat)
    | Sent(sdp: string)
    | Received(candidate: Candidate)
    | Passed(candidate: Candidate)
    | Connected
    | Disconnected

  /** How far the answer to an offer has come. */
  datatype Stage =
    | NoOffer
    | Offered(offer: nat)
    | Applied(offer: nat)
    | Answered(offer: nat, sdp: string)
    | Local(offer: nat, sdp: string)
    | Done(offer: nat)
    | Broken

  /** Candidates received and passed on since the offer; `lost` once a failure or disconnect dropped the queue. */
  datatype Watch = Watch(stage: Stage, received: seq<Candidate>, passed: seq<Candidate>, lost: bool)

  const START := Watch(NoOffer, [], [], false)

  /** The remote description of the current offer is in place. */
  predicate RemoteInPlace(s: Stage) {
    s.Applied? || s.Answered? || s.Local? || s.Done?
  }

  function Observe(w: Watch, e: Event): Watch {
    match e
    case OfferIn(n) => if w.stage.Broken? then w else Watch(Offered(n), [], [], false)
    case RemoteSet(n) => w.(stage := if w.stage == Offered(n) then Applied(n) else Broken)
    case RemoteFailed(n) => w.(stage := if w.stage == Offered(n) then w.stage else Broken, lost := true)
    case AnswerMade(n, sdp) => w.(stage := if w.stage == Applied(n) then Answered(n, sdp) else Broken)
    case LocalSet(n) =>
      w.(stage := if w.stage.Answered? && w.stage.offer == n then Local(n, w.stage.sdp) else Broken)
    case Sent(sdp) =>
      w.(stage := if w.stage.Local? && w.stage.sdp == sdp then Done(w.stage.offer) else Broken)
    case Received(c) => w.(received := w.received + [c])
    case Passed(c) =>
      if RemoteInPlace(w.stage) && !w.lost && |w.passed| < |w.received| && w.received[|w.passed|] == c
      then w.(passed := w.passed + [c]) else w.(stage := Broken)
    case Connected => w
    case Disconnected => w.(lost := true)
  }

  function State(log: seq<Event>): Watch {
    Fold(START, Observe, log)
  }

  lemma StateStep(log: seq<Event>, e: Event)
    ensures State(log + [e]) == Observe(State(log), e)
  {
    FoldStep(START, Observe, log, e);
  }

  lemma StateAt(log: seq<Event>, k: nat)
    requires k < |log| && !State(log).stage.Broken?
    ensures State(log[..k + 1]) == Observe(State(log[..k]), log[k])
    ensures !State(log[..k]).stage.Broken? && !State(log[..k + 1]).stage.Broken?
  {
    FoldAt(START, Observe, log, k);
    FoldPrefix(START, Observe, (w: Watch) => !w.stage.Broken?, log, k);
    FoldPrefix(START, Observe, (w: Watch) => !w.stage.Broken?, log, k + 1);
  }

  // ---- what an unbroken log means ----------------------------------------------------------------

  ghost predicate NoOfferBetween(log: seq<Event>, i: int, j: int)
    requires -1 <= i && j <= |log|
  {
    forall k :: i < k < j ==> !log[k].OfferIn?
  }

  /**
   Where the stage was reached: the events that lead to it, in order, after the offer and with no other offer
   since.
   */
  ghost predicate Reached(log: seq<Event>, s: Stage) {
    match s
    case NoOffer => NoOfferBetween(log, -1, |log|)
    case Offered(n) => exists o :: OfferAt(log, n, o)
    case Applied(n) => exists o, r :: AppliedAt(log, n, o, r)
    case Answered(n, sdp) => exists o, r, a :: AnsweredAt(log, n, sdp, o, r, a)
    case Local(n, sdp) => exists o, r, a, l :: LocalAt(log, n, sdp, o, r, a, l)
    case Done(n) => exists o, sdp, r, a, l, d :: DoneAt(log, n, sdp, o, r, a, l, d)
    case Broken => false
  }

  ghost predicate OfferAt(log: seq<Event>, n: nat, o: nat) {
    o < |log| && log[o] == OfferIn(n) && NoOfferBetween(log, o, |log|)
  }

  ghost predicate AppliedAt(log: seq<Event>, n: nat, o: nat, r: nat) {
    OfferAt(log, n, o) && o < r < |log| && log[r] == RemoteSet(n)
  }

  ghost predicate AnsweredAt(log: seq<Event>, n: nat, sdp: string, o: nat, r: nat, a: nat) {
    AppliedAt(log, n, o, r) && r < a < |log| && log[a] == AnswerMade(n, sdp)
  }

  ghost predicate LocalAt(log: seq<Event>, n: nat, sdp: string, o: nat, r: nat, a: nat, l: nat) {
    AnsweredAt(log, n, sdp, o, r, a) && a < l < |log| && log[l] == LocalSet(n)
  }

  ghost predicate DoneAt(log: seq<Event>, n: nat, sdp: string, o: nat, r: nat, a: nat, l: nat, d: nat) {
    LocalAt(log, n, sdp, o, r, a, l) && l < d < |log| && log[d] == Sent(sdp)
  }

  lemma {:induction false} StagesAreReached(log: seq<Event>)
    requires !State(log).stage.Broken?
    ensures Reached(log, State(log).stage)
  {
    hide State, Observe, Reached;
    if log == [] {
      NothingReached();
    } else {
      var n := |log| - 1;
      var rest, e := log[..n], log[n];
      assert rest + [e] == log;
      StateStep(rest, e);
      BrokenStays(State(rest), e);
      StagesAreReached(rest);
      ReachedStep(rest, State(rest), e);
    }
  }

  lemma NothingReached()
    ensures Reached([], State([]).stage)
  {
  }

  lemma BrokenStays(w: Watch, e: Event)
    requires !Observe(w, e).stage.Broken?
    ensures !w.stage.Broken?
  {
  }

  lemma ReachedStep(rest: seq<Event>, w: Watch, e: Event)
    requires Reached(rest, w.stage) && !Observe(w, e).stage.Broken?
    ensures Reached(rest + [e], Observe(w, e).stage)
  {
    hide NoOfferBetween;
    var log, s, t := rest + [e], w.stage, Observe(w, e).stage;
    if e.OfferIn? {
      OfferNow(rest, e.offer);
    } else {
      ReachedKept(rest, s, e);
      match s
      case NoOffer =>
      case Offered(n) =>
        var o :| OfferAt(log, n, o);
        if t != s {
          assert AppliedAt(log, n, o, |rest|);
        }
      case Applied(n) =>
        var o, r :| AppliedAt(log, n, o, r);
        if t != s {
          assert AnsweredAt(log, n, e.sdp, o, r, |rest|);
        }
      case Answered(n, sdp) =>
        var o, r, a :| AnsweredAt(log, n, sdp, o, r, a);
        if t != s {
          assert LocalAt(log, n, sdp, o, r, a, |rest|);
        }
      case Local(n, sdp) =>
        var o, r, a, l :| LocalAt(log, n, sdp, o, r, a, l);
        if t != s {
          assert DoneAt(log, n, sdp, o, r, a, l, |rest|);
        }
      case Done(n) =>
    }
  }

  lemma OfferNow(rest: seq<Event>, n: nat)
    ensures OfferAt(rest + [OfferIn(n)], n, |rest|)
  {
  }

  lemma OfferKept(rest: seq<Event>, e: Event, n: nat, o: nat)
    requires OfferAt(rest, n, o) && !e.OfferIn?
    ensures OfferAt(rest + [e], n, o)
  {
  }

  lemma NoOfferKept(rest: seq<Event>, e: Event)
    requires NoOfferBetween(rest, -1, |rest|) && !e.OfferIn?
    ensures NoOfferBetween(rest + [e], -1, |rest + [e]|)
  {
  }

  lemma ReachedKept(rest: seq<Event>, s: Stage, e: Event)
    requires Reached(rest, s) && !e.OfferIn?
    ensures Reached(rest + [e], s)
  {
    hide NoOfferBetween, OfferAt;
    var log := rest + [e];
    match s
    case NoOffer =>
      NoOfferKept(rest, e);
    case Offered(n) =>
      var o :| OfferAt(rest, n, o);
      OfferKept(rest, e, n, o);
    case Applied(n) =>
      var o, r :| AppliedAt(rest, n, o, r);
      OfferKept(rest, e, n, o);
      assert AppliedAt(log, n, o, r);
    case Answered(n, sdp) =>
      var o, r, a :| AnsweredAt(rest, n, sdp, o, r, a);
      OfferKept(rest, e, n, o);
      assert AnsweredAt(log, n, sdp, o, r, a);
    case Local(n, sdp) =>
      var o, r, a, l :| LocalAt(rest, n, sdp, o, r, a, l);
      OfferKept(rest, e, n, o);
      assert LocalAt(log, n, sdp, o, r, a, l);
    case Done(n) =>
      var o, sdp, r, a, l, d :| DoneAt(rest, n, sdp, o, r, a, l, d);
      OfferKept(rest, e, n, o);
      assert DoneAt(log, n, sdp, o, r, a, l, d);
  }

  /**
   An answer is sent only after the current offer was applied, that answer made for it, and its local
   description set.
   */
  lemma SentMeansNegotiated(log: seq<Event>, i: nat)
    requires i < |log| && log[i].Sent? && !State(log).stage.Broken?
    ensures exists n, o, r, a, l :: LocalAt(log[..i], n, log[i].sdp, o, r, a, l)
  {
    hide State;
    StateAt(log, i);
    StagesAreReached(log[..i]);
    var s := State(log[..i]).stage;
    assert s.Local? && s.sdp == log[i].sdp;
    var o, r, a, l :| LocalAt(log[..i], s.offer, s.sdp, o, r, a, l);
  }

  /** After an answer is sent the stage stays done until another offer. */
  lemma {:induction false} DoneStays(log: seq<Event>, i: nat, j: nat)
    requires i < j <= |log| && log[i].Sent? && !State(log).stage.Broken?
    requires NoOfferBetween(log, i, j)
    ensures State(log[..j]).stage.Done?
    decreases j
  {
    hide State;
    if j == i + 1 {
      StateAt(log, i);
    } else {
      DoneStays(log, i, j - 1);
      StateAt(log, j - 1);
    }
  }

  /** At most one answer per offer. */
  lemma AnswersOnce(log: seq<Event>, i: nat, j: nat)
    requires i < j < |log| && log[i].Sent? && log[j].Sent? && !State(log).stage.Broken?
    ensures !NoOfferBetween(log, i, j)
  {
    if NoOfferBetween(log, i, j) {
      DoneStays(log, i, j);
      StateAt(log, j);
      assert false;
    }
  }

  /** How many signaling sessions have been started. */
  function Session(log: seq<Event>): nat {
    if log == [] then 0 else Session(log[..|log| - 1]) + if log[|log| - 1].Connected? then 1 else 0
  }

  ghost predicate NoConnectBetween(log: seq<Event>, i: int, j: int)
    requires -1 <= i && j <= |log|
  {
    forall k :: i < k < j ==> !log[k].Connected?
  }

  lemma {:induction false} SessionGrows(log: seq<Event>, i: nat, j: nat)
    requires i < j <= |log| && !log[i].Connected?
    ensures Session(log[..i]) <= Session(log[..j])
    ensures Session(log[..i]) == Session(log[..j]) <==> NoConnectBetween(log, i, j)
    decreases j
  {
    assert log[..j][..j - 1] == log[..j - 1];
    if j == i + 1 {
    } else {
      SessionGrows(log, i, j - 1);
    }
  }

  /** An answer goes out in the session its offer came in exactly if no session was started in between. */
  lemma AnswerInItsSession(log: seq<Event>, i: nat) returns (o: nat)
    requires i < |log| && log[i].Sent? && !State(log).stage.Broken?
    ensures o < i && log[o].OfferIn? && NoOfferBetween(log, o, i)
    ensures Session(log[..i]) == Session(log[..o]) <==> NoConnectBetween(log, o, i)
  {
    hide State, Session;
    SentMeansNegotiated(log, i);
    var n, p, r, a, l :| LocalAt(log[..i], n, log[i].sdp, p, r, a, l);
    o := p;
    assert OfferAt(log[..i], n, o);
    forall k | o < k < i ensures !log[k].OfferIn? {
      assert log[..i][k] == log[k];
    }
    SessionGrows(log, o, i);
  }

  /** No candidate is passed on before the remote description is in place, and they keep the order of arrival. */
  lemma PassedInOrder(log: seq<Event>, i: nat)
    requires i < |log| && log[i].Passed? && !State(log).stage.Broken?
    ensures RemoteInPlace(State(log[..i]).stage)
    ensures |State(log[..i]).passed| < |State(log[..i]).received|
    ensures log[i].candidate == State(log[..i]).received[|State(log[..i]).passed|]
  {
    hide State;
    StateAt(log, i);
  }

  lemma {:induction false} PassedIsPrefix(log: seq<Event>)
    requires !State(log).stage.Broken?
    ensures State(log).passed <= State(log).received
  {
    if log == [] {
    } else {
      var rest := log[..|log| - 1];
      assert State(log) == Observe(State(rest), log[|log| - 1]);
      hide State;
      PrefixStep(State(rest), log[|log| - 1]);
      PassedIsPrefix(rest);
    }
  }

  lemma PrefixStep(w: Watch, e: Event)
    requires !Observe(w, e).stage.Broken?
    ensures !w.stage.Broken?
    ensures w.passed <= w.received ==> Observe(w, e).passed <= Observe(w, e).received
  {
  }

  // ---- the receiver client -----------------------------------------------------------------------

  /** Work the client has started and not heard back from; the label says for which offer. */
  datatype Async =
    | SetRemoteCall(offer: nat)
    | CreateTask(offer: nat)
    | CreateAnswerCall(offer: nat)
    | SetLocalCall(offer: nat, sdp: string)

  /** What CreateAnswer reports: failure, or success with the text of the description (None if there is none). */
  datatype AnswerResult = AnswerFailed | AnswerOk(sdp: Option<string>)

  /** The candidates passed on, one after another. */
  function AllPassedOn(cs: seq<Candidate>): seq<Event> {
    seq(|cs|, k requires 0 <= k < |cs| => Passed(cs[k]))
  }

  lemma NothingPassedOn()
    ensures AllPassedOn([]) == []
  {
  }

  lemma PassedOnStep(cs: seq<Candidate>, k: nat)
    requires k < |cs|
    ensures AllPassedOn(cs[..k + 1]) == AllPassedOn(cs[..k]) + [Passed(cs[k])]
  {
  }

  predicate Usable(r: AnswerResult) {
    r.AnswerOk? && r.sdp.Some? && r.sdp.value != ""
  }

  lemma OfferStep(w: Watch, n: nat)
    ensures !w.stage.Broken? ==> Observe(w, OfferIn(n)) == Watch(Offered(n), [], [], false)
    ensures CallsOk([], Offered(n)) && ObserversOk(Offered(n), false, false, false)
    ensures forall b :: CandidatesOk(Watch(Offered(n), [], [], false), [], false, b)
  {
  }

  lemma OfferedIsIdle(w: Watch, n: nat, connected: bool)
    requires w.stage == Offered(n) && !w.lost && CandidatesOk(w, [], false, connected)
    ensures forall b :: CandidatesOk(w, [], false, b)
    ensures CallsOk([SetRemoteCall(n)], Offered(n)) && ObserversOk(Offered(n), true, false, false)
  {
  }

  lemma NothingParses()
    ensures Parsing([]) == []
  {
  }

  /** The candidates of a list that can be made into candidate objects. */
  function Parsing(cs: seq<Candidate>): seq<Candidate> {
    if cs == [] then [] else
    Parsing(cs[..|cs| - 1]) + if cs[|cs| - 1].parses then [cs[|cs| - 1]] else []
  }

  lemma ParsingStep(cs: seq<Candidate>, c: Candidate)
    ensures Parsing(cs + [c]) == Parsing(cs) + if c.parses then [c] else []
  {
    assert (cs + [c])[..|cs|] == cs;
  }

  /** The call in flight belongs to the current offer and to the stage its answer has reached. */
  predicate CallsOk(calls: seq<Async>, s: Stage) {
    && |calls| <= 1
    && (calls != [] ==>
          match calls[0]
          case SetRemoteCall(n) => s == Offered(n)
          case CreateTask(n) => s == Applied(n)
          case CreateAnswerCall(n) => s == Applied(n)
          case SetLocalCall(n, sdp) => s == Answered(n, sdp))
  }

  /** An observer is held only at its own stage, so never two at once. */
  predicate ObserversOk(s: Stage, setRemote: bool, createAnswer: bool, setLocal: bool) {
    (setRemote ==> s.Offered?) && (createAnswer ==> s.Applied?) && (setLocal ==> s.Answered?)
  }

  /** Nothing dropped means: what was passed on and what is queued together are what was received, in order. */
  predicate CandidatesOk(w: Watch, pending: seq<Candidate>, applied: bool, connected: bool) {
    && (!w.lost ==>
          && w.passed + pending == w.received
          && (applied ==> pending == [] && connected)
          && (applied <==> RemoteInPlace(w.stage)))
    && (w.lost ==> !applied || !connected)
  }

  /** Passing the queue on now would be in order. */
  predicate CanPass(w: Watch, queue: seq<Candidate>) {
    RemoteInPlace(w.stage) && !w.lost && w.passed + queue == w.received
  }

  predicate SameButPassed(w: Watch, v: Watch) {
    v == w.(passed := v.passed)
  }

  lemma PassStep(w: Watch, queue: seq<Candidate>)
    requires CanPass(w, queue) && queue != []
    ensures Observe(w, Passed(queue[0])) == w.(passed := w.passed + [queue[0]])
    ensures CanPass(Observe(w, Passed(queue[0])), queue[1..])
  {
    assert w.received[|w.passed|] == queue[0];
    assert w.passed + [queue[0]] + queue[1..] == w.passed + queue;
  }

  lemma AllPassed(w: Watch)
    requires CanPass(w, [])
    ensures w.passed == w.received
  {
  }

  lemma RemoteFailedStep(w: Watch, n: nat)
    requires w.stage == Offered(n)
    ensures Observe(w, RemoteFailed(n)) == w.(lost := true)
    ensures forall b :: CandidatesOk(w.(lost := true), [], false, b)
  {
  }

  lemma RemoteSetStep(w: Watch, n: nat, pending: seq<Candidate>, applied: bool, connected: bool)
    requires w.stage == Offered(n) && CandidatesOk(w, pending, applied, connected)
    ensures var v := Observe(w, RemoteSet(n));
            && v == w.(stage := Applied(n))
            && (!w.lost ==> CanPass(v, pending))
            && (!w.lost && connected ==> CandidatesOk(v.(passed := v.received), [], true, true))
            && (w.lost && !connected ==> CandidatesOk(v, [], true, false))
  {
  }

  class ReceiverClient {
    var pendingRemoteIce: seq<Candidate>
    var remoteDescriptionApplied: bool
    var peerConnection: Option<nat>
    var factory: bool
    var signaling: bool
    var pendingSetRemote: bool
    var pendingCreateAnswer: bool
    var pendingSetLocal: bool
    // The number of offers so far, what is in flight, and what has happened.
    var offers: nat
    var calls: seq<Async>
    var log: seq<Event>
    /** A callback used a peer connection that was gone. */
    var fault: bool
    /** Candidate objects given to the current peer connection. */
    var added: seq<Candidate>

    ghost predicate Valid()
      reads this
    {
      var w := State(log);
      && !w.stage.Broken? && !fault && (peerConnection.Some? ==> factory)
      && CallsOk(calls, w.stage)
      && ObserversOk(w.stage, pendingSetRemote, pendingCreateAnswer, pendingSetLocal)
      && CandidatesOk(w, pendingRemoteIce, remoteDescriptionApplied, peerConnection.Some?)
      && (calls != [] ==> (w.lost <==> peerConnection.None?))
      && (w.stage.NoOffer? || w.stage.offer <= offers)
      && added == Parsing(w.passed)
    }

    constructor ()
      ensures Valid() && log == [] && offers == 0 && calls == [] && !signaling && peerConnection == None && !factory
    {
      pendingRemoteIce, remoteDescriptionApplied, peerConnection, factory := [], false, None, false;
      signaling, pendingSetRemote, pendingCreateAnswer, pendingSetLocal := false, false, false, false;
      offers, calls, log, fault, added := 0, [], [], false, [];
    }

    /** At most one observer is held. */
    predicate OneHeld()
      reads this
    {
      !(pendingSetRemote && pendingCreateAnswer) && !(pendingSetRemote && pendingSetLocal)
      && !(pendingCreateAnswer && pendingSetLocal)
    }

    method Record(e: Event)
      modifies this`log
      ensures log == old(log) + [e] && State(log) == Observe(old(State(log)), e)
    {
      log := log + [e];
      StateStep(old(log), e);
    }

    method ConnectToSignaling(started: bool)
      requires !fault
      modifies this`signaling, this`log
      ensures old(Valid()) ==> Valid()
      ensures signaling == started && log == old(log) + if started then [Connected] else []
    {
      hide State, Parsing;
      signaling := started;
      if started {
        Record(Connected);
      } else {
        assert log == log + [];
      }
    }

    /** The call at `k` has reported. */
    method Take(k: nat)
      requires k < |calls|
      modifies this`calls
      ensures calls == old(calls[..k] + calls[k + 1..])
      ensures |old(calls)| == 1 ==> calls == []
    {
      calls := calls[..k] + calls[k + 1..];
    }

    /**
     A new offer drops everything the last one left. The protocol facts carry over only if no call of an
     earlier offer is still in flight: callbacks do not say which offer they belong to.
     */
    method HandleOffer(factoryMade: bool, created: bool, parsed: bool)
      requires !fault
      modifies this
      ensures old(Valid()) && old(calls) == [] ==> Valid()
      ensures offers == old(offers) + 1 && log == old(log) + [OfferIn(offers)]
      ensures State(log) == Observe(old(State(log)), OfferIn(offers))
      ensures pendingRemoteIce == [] && !remoteDescriptionApplied && added == [] && !fault
      ensures signaling == old(signaling)
      ensures !pendingCreateAnswer && !pendingSetLocal
      ensures pendingSetRemote == (peerConnection.Some? && parsed)
      ensures calls == old(calls) + if peerConnection.Some? && parsed then [SetRemoteCall(offers)] else []
      ensures factory == (old(factory) || factoryMade)
      ensures factory ==> peerConnection == if created then Some(offers) else None
      ensures !factory ==> peerConnection == old(peerConnection)
    {
      hide State, Observe, Valid, JustOffered;
      ForgetNegotiation();
      CreatePeerConnection(factoryMade, created);
      if peerConnection.None? || !parsed {
        assert calls == calls + [];
        return;
      }
      StartSetRemote();
    }

    /** The current offer has come in and nothing else has happened. */
    ghost predicate JustOffered()
      reads this
    {
      && State(log) == Watch(Offered(offers), [], [], false) && calls == []
      && pendingRemoteIce == [] && !remoteDescriptionApplied && !pendingCreateAnswer && !pendingSetLocal
    }

    /** Whatever the last negotiation left is dropped, except its calls in flight. */
    method ForgetNegotiation()
      requires !fault
      modifies this`offers, this`log, this`pendingRemoteIce, this`remoteDescriptionApplied, this`added,
               this`pendingSetRemote, this`pendingCreateAnswer, this`pendingSetLocal
      ensures old(Valid()) && calls == [] ==> Valid() && JustOffered()
      ensures offers == old(offers) + 1 && log == old(log) + [OfferIn(offers)]
      ensures State(log) == Observe(old(State(log)), OfferIn(offers))
      ensures pendingRemoteIce == [] && !remoteDescriptionApplied && added == []
      ensures !pendingSetRemote && !pendingCreateAnswer && !pendingSetLocal
    {
      hide State, Parsing, CallsOk, ObserversOk, CandidatesOk, Observe;
      OfferStep(State(log), offers + 1);
      NothingParses();
      offers := offers + 1;
      Record(OfferIn(offers));
      pendingRemoteIce, remoteDescriptionApplied, added := [], false, [];
      pendingSetRemote, pendingCreateAnswer, pendingSetLocal := false, false, false;
    }

    method StartSetRemote()
      requires !fault && peerConnection.Some?
      modifies this`pendingSetRemote, this`calls
      ensures old(Valid() && JustOffered()) ==> Valid()
      ensures pendingSetRemote && calls == old(calls) + [SetRemoteCall(offers)]
    {
      hide State, Parsing, CallsOk, ObserversOk, CandidatesOk;
      if Valid() && JustOffered() {
        OfferedIsIdle(State(log), offers, true);
      }
      assert [] + [SetRemoteCall(offers)] == [SetRemoteCall(offers)];
      pendingSetRemote := true;
      calls := calls + [SetRemoteCall(offers)];
    }

    method CreatePeerConnection(factoryMade: bool, created: bool)
      modifies this`factory, this`peerConnection
      ensures old(Valid() && JustOffered()) ==> Valid() && JustOffered()
      ensures factory == (old(factory) || factoryMade)
      ensures peerConnection == if factory then (if created then Some(offers) else None) else old(peerConnection)
    {
      if !factory {
        factory := factoryMade;
      }
      if !factory {
        return;
      }
      peerConnection := None;
      if created {
        peerConnection := Some(offers);
      }
    }

    method AddRemoteIceCandidateNow(c: Candidate)
      modifies this`log, this`added
      ensures peerConnection.None? ==> log == old(log) && added == old(added)
      ensures peerConnection.Some? ==>
                && log == old(log) + [Passed(c)] && State(log) == Observe(old(State(log)), Passed(c))
                && added == old(added) + if c.parses then [c] else []
    {
      if peerConnection.None? {
        return;
      }
      Record(Passed(c));
      if c.parses {
        added := added + [c];
      }
    }

    method FlushPendingRemoteIceCandidates()
      modifies this`log, this`added, this`pendingRemoteIce
      ensures pendingRemoteIce == []
      ensures log == old(log) + if peerConnection.Some? then AllPassedOn(old(pendingRemoteIce)) else []
      ensures peerConnection.None? || old(pendingRemoteIce) == [] ==> log == old(log) && added == old(added)
      ensures peerConnection.Some? && CanPass(old(State(log)), old(pendingRemoteIce)) ==>
                && State(log) == old(State(log)).(passed := old(State(log)).received)
                && (old(added) == Parsing(old(State(log)).passed) ==> added == Parsing(State(log).passed))
    {
      hide State, Parsing, Observe, CanPass, AllPassedOn;
      ghost var w := State(log);
      NothingPassedOn();
      for k := 0 to |pendingRemoteIce|
        invariant pendingRemoteIce == old(pendingRemoteIce)
        invariant log == old(log) + if peerConnection.Some? then AllPassedOn(pendingRemoteIce[..k]) else []
        invariant peerConnection.None? || k == 0 ==> log == old(log) && added == old(added)
        invariant peerConnection.Some? && CanPass(w, pendingRemoteIce) ==>
                    && CanPass(State(log), pendingRemoteIce[k..]) && SameButPassed(w, State(log))
                    && (old(added) == Parsing(w.passed) ==> added == Parsing(State(log).passed))
      {
        ghost var v := State(log);
        PassedOnStep(pendingRemoteIce, k);
        AddRemoteIceCandidateNow(pendingRemoteIce[k]);
        if peerConnection.Some? && CanPass(w, pendingRemoteIce) {
          PassStep(v, pendingRemoteIce[k..]);
          assert pendingRemoteIce[k..][0] == pendingRemoteIce[k];
          assert pendingRemoteIce[k..][1..] == pendingRemoteIce[k + 1..];
          ParsingStep(v.passed, pendingRemoteIce[k]);
        }
      }
      if peerConnection.Some? && CanPass(w, pendingRemoteIce) {
        assert pendingRemoteIce[|pendingRemoteIce|..] == [];
        AllPassed(State(log));
      }
      assert pendingRemoteIce[..|pendingRemoteIce|] == pendingRemoteIce;
      pendingRemoteIce := [];
    }

    /** The remote description was applied or refused. */
    method CompleteSetRemote(k: nat, ok: bool)
      requires !fault && k < |calls| && calls[k].SetRemoteCall?
      modifies this`calls, this`pendingSetRemote, this`remoteDescriptionApplied, this`pendingRemoteIce, this`log,
               this`added
      ensures old(Valid()) ==> Valid()
      ensures remoteDescriptionApplied == ok && pendingRemoteIce == []
      ensures calls == old(calls[..k] + calls[k + 1..]) + if ok then [CreateTask(old(calls[k]).offer)] else []
      ensures ok ==> log == old(log) + [RemoteSet(old(calls[k]).offer)] +
                            if peerConnection.Some? then AllPassedOn(old(pendingRemoteIce)) else []
      ensures ok && old(pendingRemoteIce) == [] ==>
                log == old(log) + [RemoteSet(old(calls[k]).offer)] && added == old(added)
      ensures !ok ==> log == old(log) + [RemoteFailed(old(calls[k]).offer)]
    {
      hide State, Parsing, Observe, CandidatesOk, CanPass, AllPassedOn;
      var n := calls[k].offer;
      ghost var w := State(log);
      Take(k);
      pendingSetRemote := false;
      if !ok {
        remoteDescriptionApplied := false;
        pendingRemoteIce := [];
        Record(RemoteFailed(n));
        if old(Valid()) { RemoteFailedStep(w, n); }
        assert calls == calls + [];
        return;
      }
      remoteDescriptionApplied := true;
      Record(RemoteSet(n));
      if old(Valid()) {
        RemoteSetStep(w, n, pendingRemoteIce, old(remoteDescriptionApplied), peerConnection.Some?);
      }
      FlushPendingRemoteIceCandidates();
      calls := calls + [CreateTask(n)];
    }

    /** The queued task that asks for the answer, on the client's own thread. */
    method DoCreateAnswerAfterSetRemote(k: nat)
      requires !fault && k < |calls| && calls[k].CreateTask?
      modifies this`calls, this`pendingCreateAnswer
      ensures old(Valid()) ==> Valid()
      ensures pendingCreateAnswer == (old(pendingCreateAnswer) || peerConnection.Some?)
      ensures calls == old(calls[..k] + calls[k + 1..]) +
                       if peerConnection.Some? then [CreateAnswerCall(old(calls[k]).offer)] else []
    {
      hide State, Parsing, CandidatesOk;
      var n := calls[k].offer;
      Take(k);
      if peerConnection.None? {
        assert calls == calls + [];
        return;
      }
      pendingCreateAnswer := true;
      calls := calls + [CreateAnswerCall(n)];
    }

    /** The answer was made or not. Using it needs a peer connection, which a disconnect may have taken away. */
    method CompleteCreateAnswer(k: nat, result: AnswerResult)
      requires !fault && k < |calls| && calls[k].CreateAnswerCall?
      modifies this`calls, this`pendingCreateAnswer, this`pendingSetLocal, this`log, this`fault
      ensures fault <==> Usable(result) && peerConnection.None?
      ensures old(Valid()) && !fault ==> Valid()
      ensures !pendingCreateAnswer && pendingSetLocal == (old(pendingSetLocal) || Usable(result))
      ensures calls == old(calls[..k] + calls[k + 1..]) +
                       if Usable(result) && !fault then [SetLocalCall(old(calls[k]).offer, result.sdp.value)] else []
      ensures log == old(log) +
                     if Usable(result) && !fault then [AnswerMade(old(calls[k]).offer, result.sdp.value)] else []
    {
      hide State, Parsing;
      var n := calls[k].offer;
      Take(k);
      pendingCreateAnswer := false;
      if result.AnswerFailed? || result.sdp.None? || |result.sdp.value| == 0 {
        assert calls == calls + [] && log == log + [];
        return;
      }
      pendingSetLocal := true;
      if peerConnection.None? {
        assert calls == calls + [] && log == log + [];
        fault := true;
        return;
      }
      Record(AnswerMade(n, result.sdp.value));
      calls := calls + [SetLocalCall(n, result.sdp.value)];
    }

    /** The local description was set or refused; the answer goes out if there is someone to send it to. */
    method CompleteSetLocal(k: nat, ok: bool)
      requires !fault && k < |calls| && calls[k].SetLocalCall?
      modifies this`calls, this`pendingSetLocal, this`log
      ensures old(Valid()) ==> Valid()
      ensures calls == old(calls[..k] + calls[k + 1..])
      ensures log == old(log) + (if ok then [LocalSet(old(calls[k]).offer)] else [])
                              + (if ok && signaling then [Sent(old(calls[k]).sdp)] else [])
    {
      hide State, Parsing;
      var n, sdp := calls[k].offer, calls[k].sdp;
      Take(k);
      pendingSetLocal := false;
      if ok {
        Record(LocalSet(n));
        if signaling {
          Record(Sent(sdp));
        }
      }
    }

    /** A call in flight is dropped without an answer. */
    method Drop(k: nat)
      requires Valid() && k < |calls|
      modifies this`calls
      ensures Valid() && calls == old(calls[..k] + calls[k + 1..])
    {
      Take(k);
    }

    method HandleRemoteIceCandidate(c: Candidate)
      requires !fault
      modifies this`log, this`pendingRemoteIce, this`added
      ensures old(Valid()) ==> Valid()
      ensures var now := peerConnection.Some? && remoteDescriptionApplied;
              && log == old(log) + (if now then [Received(c), Passed(c)] else [Received(c)])
              && pendingRemoteIce == old(pendingRemoteIce) + (if now then [] else [c])
    {
      hide State, Parsing;
      ghost var w := State(log);
      Record(Received(c));
      if peerConnection.None? || !remoteDescriptionApplied {
        pendingRemoteIce := pendingRemoteIce + [c];
        Assoc(w.passed, old(pendingRemoteIce), [c]);
        return;
      }
      AddRemoteIceCandidateNow(c);
      ParsingStep(w.passed, c);
      assert w.passed + [] == w.passed && w.passed + [c] + [] == w.passed + [c];
    }

    method Disconnect()
      requires !fault
      modifies this`pendingRemoteIce, this`remoteDescriptionApplied, this`pendingSetRemote, this`pendingCreateAnswer,
               this`pendingSetLocal, this`signaling, this`peerConnection, this`log
      ensures old(Valid()) ==> Valid()
      ensures pendingRemoteIce == [] && !remoteDescriptionApplied && !signaling && peerConnection == None
      ensures !pendingSetRemote && !pendingCreateAnswer && !pendingSetLocal
      ensures log == old(log) + [Disconnected]
    {
      hide State, Parsing;
      pendingRemoteIce, remoteDescriptionApplied := [], false;
      pendingSetRemote, pendingCreateAnswer, pendingSetLocal := false, false, false;
      signaling := false;
      peerConnection := None;
      Record(Disconnected);
    }

    /**
     Why an offer must wait for the last one's calls: from every state with a call in flight, a new offer and
     then the success of that call break the protocol.
     */
    method StaleCallBreaks()
      requires Valid() && calls != []
      modifies this
      ensures State(log).stage.Broken?
    {
      hide State, Parsing, CandidatesOk, ObserversOk;
      HandleOffer(true, true, true);
      ghost var before := log;
      match calls[0] {
        case SetRemoteCall(n) =>
          CompleteSetRemote(0, true);
          StateStep(before, RemoteSet(n));
        case CreateTask(n) =>
          DoCreateAnswerAfterSetRemote(0);
          CompleteCreateAnswer(1, AnswerOk(Some("v=0")));
          StateStep(before, AnswerMade(n, "v=0"));
        case CreateAnswerCall(n) =>
          CompleteCreateAnswer(0, AnswerOk(Some("v=0")));
          StateStep(before, AnswerMade(n, "v=0"));
        case SetLocalCall(n, sdp) =>
          CompleteSetLocal(0, true);
          StateStep(before, LocalSet(n));
          StateStep(before + [LocalSet(n)], Sent(sdp));
          assert signaling || log == before + [LocalSet(n)];
      }
    }

    lemma ValidHoldsOne()
      requires Valid()
      ensures OneHeld()
    {
    }

    /**
     Any run with one offer in flight: the log stays in order, at most one observer is held, and only a fault can
     end the run.
     */
    method Run(steps: seq<Step>) returns (ghost trace: seq<nat>)
      requires Valid()
      modifies this
      ensures !State(log).stage.Broken? && (fault || Valid()) && OneHeld() && old(log) <= log
      ensures |trace| <= |steps| && (!fault ==> |trace| == |steps|)
      ensures forall i :: 0 <= i < |trace| ==> trace[i] <= |log| && Leaves(steps[i], log[trace[i]..])
    {
      hide State, Parsing, Observe, Valid, OneHeld, Leaves;
      ValidHoldsOne();
      trace := [];
      for i := 0 to |steps|
        invariant Valid() && OneHeld() && |trace| == i && old(log) <= log
        invariant forall k :: 0 <= k < i ==> trace[k] <= |log| && Leaves(steps[k], log[trace[k]..])
      {
        ghost var before := log;
        DoStep(steps[i]);
        LeavesKept(steps, trace, before, log);
        if fault {
          return;
        }
        trace := trace + [|before|];
      }
      ValidUnbroken();
    }

    /** One step; an offer waits for the calls of the last one, and without a call none can report. */
    method DoStep(step: Step)
      requires Valid()
      modifies this
      ensures !State(log).stage.Broken? && (fault || Valid()) && OneHeld() && old(log) <= log
      ensures fault ==> step.Callback?
      ensures Leaves(step, log[|old(log)|..])
      ensures step.Offer? && old(calls) == [] ==> log == old(log) + [OfferIn(offers)]
    {
      hide State, Parsing, Observe;
      match step {
        case Offer(factoryMade, created, parsed) =>
          if calls == [] { HandleOffer(factoryMade, created, parsed); }
        case Callback(ok, result) =>
          if calls != [] { Deliver(ok, result); }
        case DropCall =>
          if calls != [] { Drop(0); }
        case Ice(c) => HandleRemoteIceCandidate(c);
        case Connect(started) => ConnectToSignaling(started);
        case Hangup => Disconnect();
      }
      if !fault {
        ValidHoldsOne();
      }
    }

    lemma ValidUnbroken()
      requires Valid()
      ensures !State(log).stage.Broken?
    {
    }

    /** The call in flight reports. */
    method Deliver(ok: bool, result: AnswerResult)
      requires Valid() && calls != []
      modifies this
      ensures !State(log).stage.Broken? && (fault || Valid()) && OneHeld() && old(log) <= log
      ensures fault <==> old(calls[0]).CreateAnswerCall? && Usable(result) && old(peerConnection).None?
    {
      hide State, Parsing, Observe;
      match calls[0] {
        case SetRemoteCall(_) => CompleteSetRemote(0, ok);
        case CreateTask(_) => DoCreateAnswerAfterSetRemote(0);
        case CreateAnswerCall(_) =>
          ghost var before := log;
          CompleteCreateAnswer(0, result);
          if fault { assert log == before; }
        case SetLocalCall(_, _) => CompleteSetLocal(0, ok);
      }
      if !fault {
        ValidHoldsOne();
      }
    }
  }

  /** What a step leaves in the log at least, from where it began. */
  predicate Leaves(step: Step, log: seq<Event>) {
    match step
    case Ice(c) => log != [] && log[0] == Received(c)
    case Connect(started) => started ==> log != [] && log[0] == Connected
    case Hangup => log != [] && log[0] == Disconnected
    case _ => true
  }

  lemma LeavesKept(steps: seq<Step>, trace: seq<nat>, log: seq<Event>, more: seq<Event>)
    requires |trace| <= |steps| && log <= more
    requires forall i :: 0 <= i < |trace| ==> trace[i] <= |log| && Leaves(steps[i], log[trace[i]..])
    ensures forall i :: 0 <= i < |trace| ==> trace[i] <= |more| && Leaves(steps[i], more[trace[i]..])
  {
    forall i | 0 <= i < |trace| ensures trace[i] <= |more| && Leaves(steps[i], more[trace[i]..]) {
      assert Leaves(steps[i], log[trace[i]..]);
      if trace[i] < |log| {
        assert more[trace[i]..][0] == log[trace[i]..][0];
      }
    }
  }

  datatype Step =
    | Offer(factoryMade: bool, created: bool, parsed: bool)
    | Callback(ok: bool, result: AnswerResult)
    | DropCall
    | Ice(candidate: Candidate)
    | Connect(started: bool)
    | Hangup

  /** Two offers close together: a candidate of the second is passed on before the second is applied. */
  method TwoOffers(c: Candidate) returns (log: seq<Event>)
    ensures log == [OfferIn(1), OfferIn(2), RemoteSet(1), Received(c), Passed(c)]
    ensures State(log).stage.Broken?
  {
    hide Parsing, State, CandidatesOk, ObserversOk, CallsOk;
    var client := new ReceiverClient();
    client.HandleOffer(true, true, true);
    client.HandleOffer(true, true, true);
    ghost var offered := client.log;
    client.CompleteSetRemote(0, true);
    StateStep(offered, RemoteSet(1));
    client.HandleRemoteIceCandidate(c);
    StateStep(offered + [RemoteSet(1)], Received(c));
    StateStep(offered + [RemoteSet(1)] + [Received(c)], Passed(c));
    log := client.log;
    assert log == offered + [RemoteSet(1)] + [Received(c)] + [Passed(c)];
  }

  /** A disconnect between asking for the answer and getting it: the callback uses a peer connection that is gone. */
  method AnswerAfterDisconnect() returns (fault: bool)
    ensures fault
  {
    hide Parsing, State, Observe, CandidatesOk, ObserversOk, CallsOk;
    var client := new ReceiverClient();
    client.HandleOffer(true, true, true);
    client.CompleteSetRemote(0, true);
    client.DoCreateAnswerAfterSetRemote(0);
    client.Disconnect();
    client.CompleteCreateAnswer(0, AnswerOk(Some("v=0")));
    fault := client.fault;
  }

  /** The first offer of a session, up to the making of its answer. */
  method AnswerFirstOffer(client: ReceiverClient)
    requires !client.fault && client.calls == [] && client.offers == 0 && client.log == [Connected]
    modifies client
    ensures client.log == [Connected, OfferIn(1), RemoteSet(1), AnswerMade(1, "v=0")]
    ensures client.calls == [SetLocalCall(1, "v=0")] && !client.fault
  {
    hide State, Observe, ReceiverClient.Valid, AllPassedOn;
    client.HandleOffer(true, true, true);
    client.CompleteSetRemote(0, true);
    client.DoCreateAnswerAfterSetRemote(0);
    client.CompleteCreateAnswer(0, AnswerOk(Some("v=0")));
  }

  /** A disconnect and a new session while the local description is being set: the old offer's answer goes out in it. */
  method AnswerInLaterSession() returns (log: seq<Event>)
    ensures log == [Connected, OfferIn(1), RemoteSet(1), AnswerMade(1, "v=0"), Disconnected, Connected, LocalSet(1),
                    Sent("v=0")]
  {
    hide State, Observe, ReceiverClient.Valid;
    var client := new ReceiverClient();
    client.ConnectToSignaling(true);
    AnswerFirstOffer(client);
    client.Disconnect();
    client.ConnectToSignaling(true);
    client.CompleteSetLocal(0, true);
    log := client.log;
  }
}
