/** The web channel's client side: numbered requests, and signals whose callbacks may connect, disconnect and emit. */
module WebChannel {

  import opened Base

  /** A callback function, by identity. */
  type Callback = nat

  // ---- requests ------------------------------------------------------------------------------

  /** The largest integer up to which adding one to a double always gives the next integer. */
  const SATURATION := 0x20_0000_0000_0000

  /** `x + 1` in double arithmetic, for the integers a counter can reach from zero. */
  function Increment(x: nat): nat {
    if x < SATURATION then x + 1 else x
  }

  /** What a request carries: whether it already has an id, and its callback if it has one. */
  datatype Request = Request(hasId: bool, callback: Option<Callback>)

  /** What a callback does while it runs: send requests, see responses, each with what its callback does, or throw. */
  datatype Script =
    | Return
    | Throw
    | Send(request: Request, rest: Script)
    | Answer(id: Option<nat>, inner: Script, rest: Script)

  function Sends(s: Script): nat {
    match s
    case Return => 0
    case Throw => 0
    case Send(_, rest) => 1 + Sends(rest)
    case Answer(_, inner, rest) => Sends(inner) + Sends(rest)
  }

  /** A script in which no response comes; how many ids it takes; whether it throws. */
  predicate Plain(s: Script) {
    match s case Return => true case Throw => true case Send(_, rest) => Plain(rest) case Answer(_, _, _) => false
  }

  function Takes(s: Script): nat {
    match s
    case Return => 0
    case Throw => 0
    case Send(r, rest) => (if r.callback.Some? && !r.hasId then 1 else 0) + Takes(rest)
    case Answer(_, _, rest) => Takes(rest)
  }

  predicate EndsInThrow(s: Script) {
    match s
    case Return => false
    case Throw => true
    case Send(_, rest) => EndsInThrow(rest)
    case Answer(_, _, rest) => EndsInThrow(rest)
  }

  /** No response comes for an id whose callback is running, and no callback throws. */
  predicate NoReentry(s: Script, running: set<nat>) {
    match s
    case Return => true
    case Throw => false
    case Send(_, rest) => NoReentry(rest, running)
    case Answer(id, inner, rest) =>
      && (id.Some? ==> id.value !in running && NoReentry(inner, running + {id.value}))
      && NoReentry(rest, running)
  }

  /** The ids answered in a script. */
  function Ids(s: Script): set<nat> {
    match s
    case Return => {}
    case Throw => {}
    case Send(_, rest) => Ids(rest)
    case Answer(id, inner, rest) => (if id.Some? then {id.value} else {}) + Ids(inner) + Ids(rest)
  }

  class Channel {
    var execId: nat
    var execCallbacks: map<nat, Callback>
    // The callback each id was issued to, the ids answered, and the ids whose callbacks were called.
    var issued: map<nat, Callback>
    var answered: set<nat>
    var calls: seq<nat>
    // The ids whose callbacks are running, those whose callbacks threw, and whether a response came for one of them.
    ghost var running: set<nat>
    ghost var thrown: set<nat>
    ghost var reentered: bool

    /** Every id below the counter was issued once, and is outstanding or answered but not both. */
    ghost predicate Valid()
      reads this
    {
      && execId <= SATURATION
      && (forall k :: k in issued <==> 0 <= k < execId)
      && (forall k :: k in issued <==> (k in execCallbacks || k in answered))
      && (forall k :: k in execCallbacks ==> k !in answered && k in issued && execCallbacks[k] == issued[k])
      && (!reentered ==> OnceEach())
    }

    /** The callbacks called are those of the ids answered, running, and left outstanding by a throw, once each. */
    ghost predicate OnceEach()
      reads this
    {
      && running !! answered && running !! thrown && thrown !! answered
      && (forall k :: k in running || k in thrown ==> k in issued)
      && (forall k :: k in calls <==> k in answered || k in running || k in thrown)
      && (forall i, j :: 0 <= i < j < |calls| ==> calls[i] != calls[j])
    }

    constructor ()
      ensures Valid() && execId == 0 && execCallbacks == map[] && answered == {} && calls == [] && !reentered
    {
      execId, execCallbacks, issued, answered, calls := 0, map[], map[], {}, [];
      running, thrown, reentered := {}, {}, false;
    }

    /**
     Sends a request. An id is fresh below the saturation point; at that point it is the same one every time,
     so the callback it displaces is lost exactly when one is outstanding there.
     */
    method Exec(r: Request) returns (id: Option<nat>)
      modifies this`execId, this`execCallbacks, this`issued
      ensures id == if r.callback.Some? && !r.hasId then Some(old(execId)) else None
      ensures id.None? ==> execId == old(execId) && execCallbacks == old(execCallbacks) && issued == old(issued)
      ensures id.Some? ==>
                && execId == (if old(execId) < 9007199254740992 then old(execId) + 1 else old(execId))
                && execCallbacks == old(execCallbacks)[old(execId) := r.callback.value]
                && issued == old(issued)[old(execId) := r.callback.value]
      ensures old(Valid()) && (id.None? || old(execId) < 9007199254740992) ==>
                Valid() && (id.Some? ==> id.value !in old(execCallbacks))
    {
      if r.callback.None? || r.hasId {
        return None;
      }
      id := Some(execId);
      execCallbacks := execCallbacks[execId := r.callback.value];
      issued := issued[execId := r.callback.value];
      execId := Increment(execId);
    }

    /**
     A response calls the callback its id was issued to and then forgets that callback, unless the callback throws,
     which leaves it outstanding. Meanwhile the callback may send requests and even see other responses; no callback
     is forgotten but those of the ids answered, and each is called once, unless a response comes for an id whose
     callback is running or threw. A response without an id, or with one that is not outstanding, calls nothing.
     */
    method HandleResponse(id: Option<nat>, script: Script) returns (called: bool, threw: bool)
      requires Valid() && execId + Sends(script) <= SATURATION
      modifies this
      ensures Valid() && Extends() && execId <= old(execId) + Sends(script) && running == old(running)
      ensures NoReentry(Answer(id, script, Return), old(running) + old(thrown)) ==>
                reentered == old(reentered) && !threw && thrown == old(thrown)
      ensures called == (id.Some? && id.value in old(execCallbacks))
      ensures !called ==>
                !threw && execCallbacks == old(execCallbacks) && calls == old(calls) && answered == old(answered)
      ensures called ==> |calls| > |old(calls)| && calls[|old(calls)|] == id.value
      ensures called && !threw ==> id.value in answered && id.value !in execCallbacks
      ensures called && threw && id.value !in Ids(script) ==> id.value in execCallbacks
      ensures forall k :: k in old(execCallbacks) && Some(k) != id && k !in Ids(script) ==> k in execCallbacks
      ensures called && Plain(script) ==> threw == EndsInThrow(script) && execId == old(execId) + Takes(script)
      ensures called && !threw ==> !EndsInThrow(script) && execId >= old(execId) + Takes(script)
      decreases script, 1
    {
      hide OnceEach, Sends, Ids;
      if id.None? || id.value !in execCallbacks {
        return false, false;
      }
      Enter(id.value);
      ghost var before := calls;
      assert running + thrown == (old(running) + old(thrown)) + {id.value};
      threw := Perform(script);
      assert calls[|old(calls)|] == before[|old(calls)|];
      if threw {
        Unwind(id.value, old(running));
      } else {
        Leave(id.value, old(running));
      }
      called := true;
    }

    method Enter(id: nat)
      requires Valid() && id in execCallbacks
      modifies this`calls, this`running, this`reentered
      ensures Valid() && calls == old(calls) + [id] && running == old(running) + {id}
      ensures reentered == (old(reentered) || id in old(running) || id in thrown)
    {
      reentered := reentered || id in running || id in thrown;
      running := running + {id};
      calls := calls + [id];
    }

    method Leave(id: nat, ghost others: set<nat>)
      requires Valid() && id in issued && running == others + {id} && (!reentered ==> id !in others)
      modifies this`execCallbacks, this`answered, this`running
      ensures Valid() && execCallbacks == old(execCallbacks) - {id} && answered == old(answered) + {id}
      ensures running == others
    {
      execCallbacks := execCallbacks - {id};
      answered := answered + {id};
      running := others;
    }

    /** The throw skips the deletion. */
    ghost method Unwind(id: nat, others: set<nat>)
      requires Valid() && id in issued && running == others + {id} && (!reentered ==> id !in others)
      modifies this`running, this`thrown
      ensures Valid() && running == others && old(thrown) <= thrown
    {
      running := others;
      thrown := thrown + {id};
    }

    /** What a callback does while it runs; a throw ends it, its own or one that passes through it. */
    method Perform(script: Script) returns (threw: bool)
      requires Valid() && execId + Sends(script) <= SATURATION
      modifies this
      ensures Valid() && Extends() && execId <= old(execId) + Sends(script) && running == old(running)
      ensures NoReentry(script, old(running) + old(thrown)) ==>
                reentered == old(reentered) && !threw && thrown == old(thrown)
      ensures forall k :: k in old(execCallbacks) && k !in Ids(script) ==> k in execCallbacks
      ensures Plain(script) ==> threw == EndsInThrow(script) && execId == old(execId) + Takes(script)
      ensures !threw ==> !EndsInThrow(script) && execId >= old(execId) + Takes(script)
      decreases script, 0
    {
      hide OnceEach;
      match script {
        case Return => threw := false;
        case Throw => threw := true;
        case Send(r, rest) =>
          var _ := Exec(r);
          threw := Perform(rest);
        case Answer(id, inner, rest) =>
          assert NoReentry(script, running + thrown) ==>
              NoReentry(Answer(id, inner, Return), running + thrown) && NoReentry(rest, running + thrown);
          var _, failed := HandleResponse(id, inner);
          if failed {
            return true;
          }
          threw := Perform(rest);
      }
    }

    /** Ids keep the callback they were issued to, answers are not taken back, and calls are only added. */
    twostate predicate Extends()
      reads this
    {
      && old(execId) <= execId && old(answered) <= answered && old(calls) <= calls && (old(reentered) ==> reentered)
      && (forall k :: k in old(issued) ==> k in issued && issued[k] == old(issued)[k])
    }

    /** At the saturation point a second request displaces the first, and the first callback is never called. */
    method SaturatedRequestDisplaces(first: Callback, second: Callback) returns (id: nat)
      requires execId == SATURATION && first != second
      modifies this
      ensures id == SATURATION && execId == SATURATION
      ensures execCallbacks == old(execCallbacks)[SATURATION := second]
    {
      var a := Exec(Request(false, Some(first)));
      var b := Exec(Request(false, Some(second)));
      assert a == b;
      id := b.value;
      assert old(execCallbacks)[SATURATION := first][SATURATION := second] == old(execCallbacks)[SATURATION := second];
    }
  }

  /** A property's value, as it comes over the wire; objects are named by their ids. */
  datatype Json =
    | Null
    | Flag(b: bool)
    | Number(n: real)
    | Text(s: string)
    | List(items: seq<Json>)
    | Record(fields: map<string, Json>)
    | Reference(id: string)

  // ---- signals: the log and its monitor --------------------------------------------------------

  /** Property notifications and the destroyed signal reach the client unasked; pure signals must be asked for. */
  datatype Kind = Pure | Destroyed | Notify

  datatype Event =
    | DidConnect(signal: int, callback: Callback)
    | DidDisconnect(signal: int, callback: Callback)
    | Began(signal: int)
    | Called(callback: Callback)
    | Ended
    | Threw
    | Aborted
    | AskedHost(signal: int)
    | ReleasedHost(signal: int)
    | Cached(property: int, value: Json)

  /**
   What the log says: who is connected to each signal, which signals the host was last asked to forward, and
   for each emission under way, innermost first, which callbacks it still owes; each property's last value; and
   whether a throw is on its way out.
   */
  datatype Watch = Watch(connected: map<int, seq<Callback>>, host: set<int>, owed: seq<seq<Callback>>,
                         cache: map<int, Json>, throwing: bool, broken: bool)

  const START := Watch(map[], {}, [], map[], false, false)

  function Connected(w: Watch, s: int): seq<Callback> {
    if s in w.connected then w.connected[s] else []
  }

  function Without(cs: seq<Callback>, c: Callback): (r: seq<Callback>)
    ensures forall x :: x in r <==> x in cs && x != c
  {
    if cs == [] then [] else
    (if cs[0] == c then [] else [cs[0]]) + Without(cs[1..], c)
  }

  /**
   An emission owes exactly the callbacks connected when it begins, in order, and ends owing none. Only a throw
   aborts it, and then it aborts every emission around it before anything else happens.
   */
  function Observe(w: Watch, e: Event): Watch {
    if w.throwing && !e.Aborted? then w.(broken := true) else
    match e
    case DidConnect(s, c) => w.(connected := w.connected[s := Connected(w, s) + [c]])
    case DidDisconnect(s, c) => w.(connected := w.connected[s := Without(Connected(w, s), c)])
    case Began(s) => w.(owed := [Connected(w, s)] + w.owed)
    case Called(c) =>
      if w.owed != [] && w.owed[0] != [] && w.owed[0][0] == c
      then w.(owed := [w.owed[0][1..]] + w.owed[1..]) else w.(broken := true)
    case Ended => if w.owed != [] && w.owed[0] == [] then w.(owed := w.owed[1..]) else w.(broken := true)
    case Threw => if w.owed != [] then w.(throwing := true) else w.(broken := true)
    case Aborted =>
      if w.throwing && w.owed != [] then w.(owed := w.owed[1..], throwing := |w.owed| > 1) else w.(broken := true)
    case AskedHost(s) => w.(host := w.host + {s})
    case ReleasedHost(s) => w.(host := w.host - {s})
    case Cached(p, v) => w.(cache := w.cache[p := v])
  }

  function State(log: seq<Event>): Watch {
    Fold(START, Observe, log)
  }

  lemma StateStep(log: seq<Event>, e: Event)
    ensures State(log + [e]) == Observe(State(log), e)
  {
    FoldStep(START, Observe, log, e);
  }

  lemma StateAt(log: seq<Event>, k: nat)
    requires k < |log| && !State(log).broken
    ensures State(log[..k + 1]) == Observe(State(log[..k]), log[k]) && !State(log[..k + 1]).broken
  {
    FoldAt(START, Observe, log, k);
    FoldPrefix(START, Observe, (w: Watch) => !w.broken, log, k);
    FoldPrefix(START, Observe, (w: Watch) => !w.broken, log, k + 1);
  }

  /** How many emissions are under way before step `k`. */
  function Depth(log: seq<Event>, k: nat): nat
    requires k <= |log|
  {
    |State(log[..k]).owed|
  }

  /** What the emission at depth `d` (counted from the outermost, zero) still owes. */
  function Owes(w: Watch, d: nat): seq<Callback> {
    if d < |w.owed| then w.owed[|w.owed| - 1 - d] else []
  }

  /** The callbacks called from step `i` on and before step `j` while `depth` emissions were under way. */
  function CallsAt(log: seq<Event>, i: nat, j: nat, depth: nat): seq<Callback>
    requires i <= j <= |log|
    decreases j - i
  {
    if i == j then []
    else
      CallsAt(log, i, j - 1, depth) +
      if log[j - 1].Called? && Depth(log, j - 1) == depth then [log[j - 1].callback] else []
  }

  lemma OwesStep(w: Watch, e: Event, d: nat)
    requires d < |w.owed| && d < |Observe(w, e).owed| && !Observe(w, e).broken
    ensures Owes(w, d) == (if e.Called? && |w.owed| == d + 1 then [e.callback] else []) + Owes(Observe(w, e), d)
  {
    var v := Observe(w, e);
    if e.Called? {
      assert v.owed[0] == w.owed[0][1..] && v.owed[1..] == w.owed[1..];
    } else if e.Began? {
      assert v.owed[1..] == w.owed;
    }
  }

  /** While an emission is under way, what it has called and what it still owes are what was connected when it began. */
  lemma {:induction false} EmissionSoFar(log: seq<Event>, i: nat, j: nat)
    requires i < j <= |log| && log[i].Began? && !State(log).broken
    requires forall k :: i < k <= j ==> Depth(log, k) > Depth(log, i)
    ensures CallsAt(log, i + 1, j, Depth(log, i) + 1) + Owes(State(log[..j]), Depth(log, i))
         == Connected(State(log[..i]), log[i].signal)
    decreases j
  {
    hide State, Observe, Owes, Connected;
    var d := Depth(log, i);
    if j == i + 1 {
      StateAt(log, i);
      BeganStep(State(log[..i]), log[i].signal);
    } else {
      EmissionSoFar(log, i, j - 1);
      StateAt(log, j - 1);
      assert Depth(log, j) > d && Depth(log, j - 1) > d;
      var w := State(log[..j - 1]);
      OwesStep(w, log[j - 1], d);
      var now := if log[j - 1].Called? && |w.owed| == d + 1 then [log[j - 1].callback] else [];
      Assoc(CallsAt(log, i + 1, j - 1, d + 1), now, Owes(State(log[..j]), d));
    }
  }

  lemma BeganStep(w: Watch, s: int)
    requires !Observe(w, Began(s)).broken
    ensures Owes(Observe(w, Began(s)), |w.owed|) == Connected(w, s)
  {
  }

  /** Step `j` is the end of the emission begun at `i`, its own or by a throw. */
  ghost predicate Matches(log: seq<Event>, i: nat, j: nat)
  {
    && i < j < |log| && (log[j].Ended? || log[j].Aborted?) && Depth(log, j) == Depth(log, i) + 1
    && (forall k :: i < k <= j ==> Depth(log, k) > Depth(log, i))
  }

  lemma DepthStep(w: Watch, e: Event)
    requires !Observe(w, e).broken
    ensures |Observe(w, e).owed| >= |w.owed| - 1
    ensures |Observe(w, e).owed| < |w.owed| ==> e.Ended? || e.Aborted?
  {
  }

  /** An emission ends if the log ever comes back to the depth it began at. */
  lemma {:induction false} EmissionEnds(log: seq<Event>, i: nat, m: nat, n: nat) returns (j: nat)
    requires i < m <= n <= |log| && log[i].Began? && !State(log).broken
    requires forall k :: i < k <= m ==> Depth(log, k) > Depth(log, i)
    requires Depth(log, n) <= Depth(log, i)
    ensures j < n && Matches(log, i, j)
    decreases n - m
  {
    hide State, Observe;
    assert m < n;
    StateAt(log, m);
    DepthStep(State(log[..m]), log[m]);
    if Depth(log, m + 1) > Depth(log, i) {
      j := EmissionEnds(log, i, m + 1, n);
    } else {
      assert Depth(log, m) > Depth(log, i);
      j := m;
    }
  }

  /**
   Each emission whose end the log has reached called the callbacks connected when it began, once each and in
   order, whatever those connect, disconnect, emit or set meanwhile: all of them if it ended of itself, and a prefix
   if a throw ended it.
   */
  lemma EmissionCallsExactly(log: seq<Event>, i: nat, n: nat) returns (j: nat)
    requires i < n <= |log| && log[i].Began? && !State(log).broken && Depth(log, n) <= Depth(log, i)
    ensures j < n && Matches(log, i, j)
    ensures var calls, due := CallsAt(log, i + 1, j, Depth(log, i) + 1), Connected(State(log[..i]), log[i].signal);
            if log[j].Ended? then calls == due else calls <= due
  {
    hide State, Connected, CallsAt;
    StateAt(log, i);
    BeganDeepens(State(log[..i]), log[i].signal);
    j := EmissionEnds(log, i, i + 1, n);
    EmissionSoFar(log, i, j);
    StateAt(log, j);
    var calls := CallsAt(log, i + 1, j, Depth(log, i) + 1);
    assert calls + [] == calls;
  }

  lemma BeganDeepens(w: Watch, s: int)
    requires !Observe(w, Began(s)).broken
    ensures |Observe(w, Began(s)).owed| == |w.owed| + 1
  {
  }

  // ---- what callbacks do ---------------------------------------------------------------------------

  /** What a callback does when called; a `None` callback stands for an argument that is not a function. */
  datatype Action =
    | Connect(signal: int, callback: Option<Callback>)
    | Disconnect(signal: int, callback: Option<Callback>)
    | Emit(signal: int, replies: Replies)
    | SetProperty(property: int, value: Json)

  datatype Actions = NoAction | ThrowError | Then(action: Action, rest: Actions)

  /** What each callback called by an emission does, in the order of the calls. */
  datatype Replies = NoReply | Reply(actions: Actions, more: Replies)

  /** How many events an action, a callback and the first `n` callbacks of an emission leave in the log at least. */
  function Weight(a: Action): nat {
    match a
    case Connect(_, c) => if c.Some? then 1 else 0
    case Disconnect(_, c) => if c.Some? then 1 else 0
    case Emit(_, _) => 2
    case SetProperty(_, _) => 1
  }

  function Length(actions: Actions): nat {
    match actions case NoAction => 0 case ThrowError => 1 case Then(a, rest) => Weight(a) + Length(rest)
  }

  function Lengths(replies: Replies, n: nat): nat {
    if n == 0 || replies.NoReply? then 0 else Length(replies.actions) + Lengths(replies.more, n - 1)
  }

  predicate Throws(actions: Actions) {
    match actions case NoAction => false case ThrowError => true case Then(_, rest) => Throws(rest)
  }

  // ---- the object ------------------------------------------------------------------------------------

  class QObject {
    const kinds: int -> Kind
    // Every array of callbacks made so far; a signal's entry refers to one of them, as a JavaScript object does.
    var arrays: seq<seq<Callback>>
    var signals: map<int, nat>
    var cache: map<int, Json>
    var log: seq<Event>

    ghost function Listed(s: int): seq<Callback>
      reads this`arrays, this`signals
    {
      if s in signals && signals[s] < |arrays| then arrays[signals[s]] else []
    }

    /** Each signal has an array of its own. */
    ghost predicate Separate()
      reads this`arrays, this`signals
    {
      && (forall s :: s in signals ==> signals[s] < |arrays|)
      && (forall s, t :: s in signals && t in signals && s != t ==> signals[s] != signals[t])
    }

    /** The array lists the signal's connections, and the host forwards the signal if there are any. */
    ghost predicate SignalOk(s: int)
      reads this`arrays, this`signals, this`log
    {
      && Listed(s) == Connected(State(log), s)
      && (kinds(s) == Pure ==> (s in State(log).host <==> Listed(s) != []))
    }

    ghost predicate Valid()
      reads this`arrays, this`signals, this`log, this`cache
    {
      Intact(false)
    }

    /** The log is in order and the object agrees with it; `throwing` is whether a throw is on its way out. */
    ghost predicate Intact(throwing: bool)
      reads this`arrays, this`signals, this`log, this`cache
    {
      && !State(log).broken && State(log).throwing == throwing && State(log).cache == cache
      && Separate() && forall s :: SignalOk(s)
    }

    /** Arrays only grow at the end, so an emission under way still finds its callbacks where they were. */
    twostate predicate Grown()
      reads this`arrays
    {
      |old(arrays)| <= |arrays| && forall i :: 0 <= i < |old(arrays)| ==> old(arrays)[i] <= arrays[i]
    }

    constructor (kinds: int -> Kind)
      ensures Valid() && this.kinds == kinds && log == []
    {
      this.kinds := kinds;
      arrays, signals, cache, log := [], map[], map[], [];
    }

    method Record(e: Event)
      modifies this`log
      ensures log == old(log) + [e] && State(log) == Observe(old(State(log)), e)
    {
      log := log + [e];
      StateStep(old(log), e);
    }

    /** Pushes onto the signal's array, in place. */
    method Push(s: int, c: Callback)
      requires Separate()
      modifies this`arrays, this`signals
      ensures Separate() && Grown() && s in signals
      ensures Listed(s) == old(Listed(s)) + [c]
      ensures forall t :: t != s ==> Listed(t) == old(Listed(t))
    {
      if s !in signals {
        signals := signals[s := |arrays|];
        arrays := arrays + [[]];
      }
      var at := signals[s];
      arrays := arrays[at := arrays[at] + [c]];
    }

    /** Gives the signal a new array; the old one stays as it is. */
    method Replace(s: int, kept: seq<Callback>)
      requires Separate()
      modifies this`arrays, this`signals
      ensures Separate() && Grown()
      ensures Listed(s) == kept
      ensures forall t :: t != s ==> Listed(t) == old(Listed(t))
    {
      signals := signals[s := |arrays|];
      arrays := arrays + [kept];
    }

    method ConnectTo(s: int, callback: Option<Callback>)
      requires Valid()
      modifies this`arrays, this`signals, this`log
      ensures Valid() && Grown() && State(log).owed == old(State(log).owed) && old(log) <= log
      ensures Listed(s) == old(Listed(s)) + if callback.Some? then [callback.value] else []
      ensures log == old(log) + (if callback.Some? then [DidConnect(s, callback.value)] else [])
                     + (if callback.Some? && kinds(s) == Pure && old(Listed(s)) == [] then [AskedHost(s)] else [])
      ensures forall t :: t != s ==> Listed(t) == old(Listed(t))
    {
      hide State, Without, Separate, Listed;
      if callback.None? {
        assert Listed(s) == Listed(s) + [];
        return;
      }
      var c := callback.value;
      Push(s, c);
      Record(DidConnect(s, c));
      var list := List(s);
      if kinds(s) == Pure && |list| == 1 {
        Record(AskedHost(s));
      }
      assert old(SignalOk(s));
      forall t ensures SignalOk(t) {
        assert old(SignalOk(t));
      }
    }

    method List(s: int) returns (cs: seq<Callback>)
      requires Separate()
      ensures cs == Listed(s)
    {
      cs := if s in signals then arrays[signals[s]] else [];
    }

    method DisconnectFrom(s: int, callback: Option<Callback>)
      requires Valid()
      modifies this`arrays, this`signals, this`log
      ensures Valid() && Grown() && State(log).owed == old(State(log).owed) && old(log) <= log
      ensures Listed(s) == if callback.Some? then Without(old(Listed(s)), callback.value) else old(Listed(s))
      ensures log == old(log) + (if callback.Some? then [DidDisconnect(s, callback.value)] else [])
                     + (if callback.Some? && kinds(s) != Notify && Listed(s) == [] then [ReleasedHost(s)] else [])
      ensures forall t :: t != s ==> Listed(t) == old(Listed(t))
    {
      hide State, Without, Separate, Listed;
      if callback.None? {
        return;
      }
      var c := callback.value;
      var list := List(s);
      var kept := Filtered(list, c);
      WithoutNothing(c);
      Replace(s, kept);
      Record(DidDisconnect(s, c));
      if kinds(s) != Notify && kept == [] {
        Record(ReleasedHost(s));
      }
      assert old(SignalOk(s));
      forall t ensures SignalOk(t) {
        assert old(SignalOk(t));
      }
    }

    /** The bookkeeping of an emission changes no connection. */
    method RecordCall(e: Event)
      requires Intact(State(log).throwing) && !Observe(State(log), e).broken
      requires e.Began? || e.Called? || e.Ended? || e.Threw? || e.Aborted?
      modifies this`log
      ensures Intact(State(log).throwing) && log == old(log) + [e] && State(log) == Observe(old(State(log)), e)
    {
      hide State, Without;
      Record(e);
      forall t ensures SignalOk(t) {
        assert old(SignalOk(t));
      }
    }

    /**
     Invokes the callbacks listed when the emission begins; each may act on this object before the next is called.
     A throw ends it early and goes on to the emission around it, if there is one.
     */
    method InvokeSignalCallbacks(s: int, replies: Replies) returns (threw: bool)
      requires Valid()
      modifies this`arrays, this`signals, this`cache, this`log
      ensures Intact(threw && State(log).owed != []) && Grown()
      ensures State(log).owed == old(State(log).owed) && old(log) <= log
      ensures |log| >= |old(log)| + 2 && log[|old(log)|] == Began(s)
      ensures log[|log| - 1] == if threw then Aborted else Ended
      ensures !threw ==>
                var n := |old(Listed(s))|; |log| >= |old(log)| + 2 + n + Lengths(replies, n)
      decreases replies, 0
    {
      hide State, Without, SignalOk, Observe;
      ListedIs(s);
      ghost var owed := State(log).owed;
      BeginStep(State(log), s);
      RecordCall(Began(s));
      ghost var began := log;
      if s in signals {
        var connections := signals[s];
        ghost var listed := arrays[connections];
        var length := |arrays[connections]|;
        var todo := replies;
        ghost var done := 0;
        assert listed[0..] == listed;
        for i := 0 to length
          invariant Valid() && Grown() && began <= log && connections < |arrays| && listed <= arrays[connections]
          invariant todo == replies || todo < replies
          invariant State(log).owed == [listed[i..]] + owed
          invariant |log| >= |began| + i + done && done + Lengths(todo, length - i) == Lengths(replies, length)
        {
          CallStep(State(log), listed[i..], owed);
          assert listed[i..][0] == listed[i] == arrays[connections][i] && listed[i..][1..] == listed[i + 1..];
          RecordCall(Called(arrays[connections][i]));
          if todo.Reply? {
            var failed := Perform(todo.actions);
            if failed {
              AbortStep(State(log), listed[i + 1..], owed);
              RecordCall(Aborted);
              assert log[|old(log)|] == began[|old(log)|];
              return true;
            }
            done := done + Length(todo.actions);
            todo := todo.more;
          }
        }
        assert listed[length..] == [];
      }
      EndStep(State(log), owed);
      RecordCall(Ended);
      assert log[|old(log)|] == began[|old(log)|];
      threw := false;
    }

    lemma ListedIs(s: int)
      requires Valid()
      ensures Connected(State(log), s) == if s in signals then arrays[signals[s]] else []
    {
      assert SignalOk(s);
    }

    method Perform(actions: Actions) returns (threw: bool)
      requires Valid() && State(log).owed != []
      modifies this`arrays, this`signals, this`cache, this`log
      ensures Intact(threw) && Grown() && State(log).owed == old(State(log).owed) && old(log) <= log
      ensures !threw ==> !Throws(actions) && |log| >= |old(log)| + Length(actions)
      decreases actions, 1
    {
      hide State, Without, SignalOk, Observe;
      threw := false;
      match actions {
        case NoAction =>
        case ThrowError =>
          ThrowStep(State(log));
          RecordCall(Threw);
          threw := true;
        case Then(a, rest) =>
          match a {
            case Connect(s, c) => ConnectTo(s, c);
            case Disconnect(s, c) => DisconnectFrom(s, c);
            case Emit(s, replies) => threw := InvokeSignalCallbacks(s, replies);
            case SetProperty(p, v) => Store(p, v);
          }
          if !threw {
            threw := Perform(rest);
          }
      }
    }

    /** Writes a property's value to the cache. */
    method Store(p: int, v: Json)
      requires Valid()
      modifies this`cache, this`log
      ensures Valid() && log == old(log) + [Cached(p, v)] && State(log).owed == old(State(log).owed)
      ensures cache == old(cache)[p := v]
    {
      hide State, Without, Separate, Listed;
      cache := cache[p := v];
      Record(Cached(p, v));
      forall t ensures SignalOk(t) {
        assert old(SignalOk(t));
      }
    }

    /**
     Updates the cache first and only then calls the notify callbacks, one emission after another; they find the
     new values there, and may themselves set properties. A throw skips the emissions still to come.
     */
    method PropertyUpdate(properties: seq<(int, Json)>, emissions: seq<(int, Replies)>)
      returns (threw: bool, ghost starts: seq<nat>)
      requires Valid()
      modifies this
      ensures Intact(threw && State(log).owed != []) && State(log).owed == old(State(log).owed) && old(log) <= log
      ensures |log| >= |old(log)| + |properties|
      ensures State(log[..|old(log)| + |properties|]).cache == Written(old(cache), properties)
      ensures forall i :: 0 <= i < |properties| ==> log[|old(log)| + i] == Cached(properties[i].0, properties[i].1)
      ensures |starts| <= |emissions| && (!threw ==> |starts| == |emissions|)
      ensures threw ==> starts != [] && log != [] && log[|log| - 1] == Aborted
      ensures forall i :: 0 <= i < |starts| ==>
                |old(log)| + |properties| <= starts[i] < |log| && log[starts[i]] == Began(emissions[i].0)
      ensures forall i, j :: 0 <= i < j < |starts| ==> starts[i] < starts[j]
    {
      hide State, Without, Separate, Listed, SignalOk, Written;
      WriteCache(properties);
      starts := [];
      threw := false;
      ghost var cached := log;
      var i := 0;
      while i < |emissions| && !threw
        invariant 0 <= i <= |emissions| && |starts| == i
        invariant threw ==> i > 0 && log != [] && log[|log| - 1] == Aborted
        invariant Intact(threw && State(log).owed != []) && State(log).owed == old(State(log).owed) && cached <= log
        invariant forall k :: 0 <= k < i ==> |cached| <= starts[k] < |log| && log[starts[k]] == Began(emissions[k].0)
        invariant forall k, l :: 0 <= k < l < i ==> starts[k] < starts[l]
      {
        starts := starts + [|log|];
        threw := InvokeSignalCallbacks(emissions[i].0, emissions[i].1);
        i := i + 1;
      }
      assert log[..|cached|] == cached;
      forall i | 0 <= i < |properties| ensures log[|old(log)| + i] == Cached(properties[i].0, properties[i].1) {
        assert log[|old(log)| + i] == cached[|old(log)| + i];
      }
    }

    method WriteCache(properties: seq<(int, Json)>)
      requires Valid()
      modifies this`cache, this`log
      ensures Valid() && State(log).owed == old(State(log).owed) && old(log) <= log
      ensures cache == Written(old(cache), properties) && |log| == |old(log)| + |properties|
      ensures forall i :: 0 <= i < |properties| ==> log[|old(log)| + i] == Cached(properties[i].0, properties[i].1)
    {
      hide State, Without, Separate, Listed, SignalOk, Written;
      WrittenStep(cache, properties, 0);
      for i := 0 to |properties|
        invariant Valid() && State(log).owed == old(State(log).owed)
        invariant |log| == |old(log)| + i && old(log) <= log && cache == Written(old(cache), properties[..i])
        invariant forall k :: 0 <= k < i ==> log[|old(log)| + k] == Cached(properties[k].0, properties[k].1)
      {
        WrittenStep(old(cache), properties, i);
        Store(properties[i].0, properties[i].1);
      }
      assert properties[..|properties|] == properties;
    }
  }

  /** The cache after writing the values in turn. */
  function Written(cache: map<int, Json>, properties: seq<(int, Json)>): map<int, Json> {
    if properties == [] then cache
    else
      var (p, v) := properties[|properties| - 1];
      Written(cache, properties[..|properties| - 1])[p := v]
  }

  lemma WrittenStep(cache: map<int, Json>, properties: seq<(int, Json)>, i: nat)
    ensures Written(cache, properties[..0]) == cache
    ensures i < |properties| ==>
              Written(cache, properties[..i + 1]) == Written(cache, properties[..i])[properties[i].0 := properties[i].1]
  {
    if i < |properties| {
      assert properties[..i + 1][..i] == properties[..i];
    }
  }

  lemma BeginStep(w: Watch, s: int)
    requires !w.throwing
    ensures Observe(w, Began(s)) == w.(owed := [Connected(w, s)] + w.owed)
  {
  }

  lemma CallStep(w: Watch, owes: seq<Callback>, owed: seq<seq<Callback>>)
    requires !w.throwing && w.owed == [owes] + owed && owes != []
    ensures Observe(w, Called(owes[0])) == w.(owed := [owes[1..]] + owed)
  {
    assert ([owes] + owed)[1..] == owed;
  }

  lemma EndStep(w: Watch, owed: seq<seq<Callback>>)
    requires !w.throwing && w.owed == [[]] + owed
    ensures Observe(w, Ended) == w.(owed := owed)
  {
    assert ([[]] + owed)[1..] == owed;
  }

  lemma ThrowStep(w: Watch)
    requires !w.throwing && w.owed != []
    ensures Observe(w, Threw) == w.(throwing := true)
  {
  }

  lemma AbortStep(w: Watch, owes: seq<Callback>, owed: seq<seq<Callback>>)
    requires w.throwing && w.owed == [owes] + owed
    ensures Observe(w, Aborted) == w.(owed := owed, throwing := owed != [])
  {
    assert ([owes] + owed)[1..] == owed;
  }

  method Filtered(cs: seq<Callback>, c: Callback) returns (r: seq<Callback>)
    ensures r == Without(cs, c)
  {
    hide Without;
    r := [];
    assert cs[0..] == cs;
    for i := 0 to |cs|
      invariant Without(cs, c) == r + Without(cs[i..], c)
    {
      WithoutStep(cs, i, c);
      Assoc(r, if cs[i] == c then [] else [cs[i]], Without(cs[i + 1..], c));
      if cs[i] != c {
        r := r + [cs[i]];
      } else {
        assert r + [] == r;
      }
    }
    assert cs[|cs|..] == [];
    WithoutNothing(c);
  }

  lemma WithoutStep(cs: seq<Callback>, i: nat, c: Callback)
    requires i < |cs|
    ensures Without(cs[i..], c) == (if cs[i] == c then [] else [cs[i]]) + Without(cs[i + 1..], c)
  {
    assert cs[i..][0] == cs[i] && cs[i..][1..] == cs[i + 1..];
  }

  lemma WithoutNothing(c: Callback)
    ensures Without([], c) == []
  {
  }
}
