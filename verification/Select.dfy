/**
 * The wake-up protocol between lwip_select and event_callback, as a state machine whose steps
 * are the sections between SYS_ARCH_PROTECT and SYS_ARCH_UNPROTECT. Any number of select calls
 * and event callbacks interleave. No watched socket is closed.
 */
module Select {

  type Sock = nat
  type CallId = nat     // address of a struct lwip_select_cb
  type WalkId = nat     // one execution of event_callback

  datatype SockState = SockState(rcv: int, send: bool, err: bool, waiting: int)

  datatype Event = RcvPlus | RcvMinus | SendPlus | SendMinus | Error

  datatype Phase =
    | Counting     // on the list, increasing select_waiting
    | Scanning     // second lwip_selscan
    | Waiting      // sys_arch_sem_wait
    | Leaving      // decreasing select_waiting

  /** A select call that is on the list. */
  datatype Call = Call(
    read: set<Sock>, write: set<Sock>, except: set<Sock>,
    phase: Phase,
    counted: set<Sock>,   // sockets whose select_waiting includes this call
    scanned: set<Sock>,   // sockets visited by the second scan
    quiet: set<Sock>,     // of these, the ones found not ready
    signalled: bool,      // sem_signalled
    signals: nat)         // how often the semaphore was signalled
  {
    function Watched(): set<Sock> { read + write + except }
  }

  /** An event_callback that has tested the entry `at` and remembers the list version it saw. */
  datatype Walk = Walk(sock: Sock, at: CallId, version: nat)

  datatype State = State(
    socks: map<Sock, SockState>,
    list: seq<CallId>,            // select_cb_list
    version: nat,                 // select_cb_ctr
    calls: map<CallId, Call>,
    walks: map<WalkId, Walk>)

  /** The test of event_callback, on the event counters only. */
  predicate Ready(c: Call, k: SockState, s: Sock) {
    (k.rcv > 0 && s in c.read) || (k.send && s in c.write) || (k.err && s in c.except)
  }

  function Occurs(k: SockState, e: Event): SockState {
    match e
    case RcvPlus => k.(rcv := k.rcv + 1)
    case RcvMinus => k.(rcv := k.rcv - 1)
    case SendPlus => k.(send := true)
    case SendMinus => k.(send := false)
    case Error => k.(err := true)
  }

  /** A call after its entry was tested for socket `s`. */
  function Tested(c: Call, k: SockState, s: Sock): Call {
    if !c.signalled && Ready(c, k, s) then c.(signalled := true, signals := c.signals + 1) else c
  }

  function IndexOf(l: seq<CallId>, c: CallId): (i: nat)
    requires c in l
    ensures i < |l| && l[i] == c
  {
    if l[0] == c then 0 else 1 + IndexOf(l[1..], c)
  }

  function Without(l: seq<CallId>, c: CallId): seq<CallId> {
    if c in l then l[..IndexOf(l, c)] + l[IndexOf(l, c) + 1..] else l
  }

  // ------------------------------------------------------------------- steps

  datatype Step =
    | Link(c: CallId, call: Call)            // put on top of the list
    | Count(c: CallId, s: Sock)
    | StartScan(c: CallId)
    | Scan(c: CallId, s: Sock, lastdata: bool)  // lastdata: a receive call has left data behind
    | EndScan(c: CallId)
    | WakeUp(c: CallId)                      // semaphore or timeout
    | Uncount(c: CallId, s: Sock)
    | Unlink(c: CallId)
    | Raise(w: WalkId, s: Sock, e: Event)    // set the event, test the first entry
    | Advance(w: WalkId)                     // go to the next entry, or start again

  predicate Enabled(st: State, step: Step) {
    match step
    case Link(c, call) =>
      && c !in st.calls && call.phase.Counting? && call.Watched() <= st.socks.Keys
      && call.counted == {} && call.scanned == {} && call.quiet == {} && !call.signalled && call.signals == 0
    case Count(c, s) => c in st.calls && st.calls[c].phase.Counting? && s in st.calls[c].Watched() - st.calls[c].counted && s in st.socks
    case StartScan(c) => c in st.calls && st.calls[c].phase.Counting? && st.calls[c].counted == st.calls[c].Watched()
    case Scan(c, s, _) => c in st.calls && st.calls[c].phase.Scanning? && s in st.calls[c].Watched() - st.calls[c].scanned && s in st.socks
    case EndScan(c) => c in st.calls && st.calls[c].phase.Scanning? && st.calls[c].scanned == st.calls[c].Watched()
    case WakeUp(c) => c in st.calls && st.calls[c].phase.Waiting?
    case Uncount(c, s) => c in st.calls && st.calls[c].phase.Leaving? && s in st.calls[c].counted && s in st.socks
    case Unlink(c) => c in st.calls && st.calls[c].phase.Leaving? && st.calls[c].counted == {}
    case Raise(w, s, e) => w !in st.walks && s in st.socks
    case Advance(w) => w in st.walks && st.walks[w].sock in st.socks
  }

  /** The walk `w` tests the entry `c` for its socket and remembers the list version. */
  function TestEntry(st: State, w: WalkId, s: Sock, c: CallId): State
    requires s in st.socks
  {
    if c in st.calls then
      st.(calls := st.calls[c := Tested(st.calls[c], st.socks[s], s)], walks := st.walks[w := Walk(s, c, st.version)])
    else st
  }

  function Do(st: State, step: Step): State
    requires Enabled(st, step)
  {
    match step
    case Link(c, call) => st.(list := [c] + st.list, version := st.version + 1, calls := st.calls[c := call])
    case Count(c, s) =>
      st.(socks := st.socks[s := st.socks[s].(waiting := st.socks[s].waiting + 1)],
          calls := st.calls[c := st.calls[c].(counted := st.calls[c].counted + {s})])
    case StartScan(c) => st.(calls := st.calls[c := st.calls[c].(phase := Scanning)])
    case Scan(c, s, lastdata) =>
      var call := st.calls[c].(scanned := st.calls[c].scanned + {s});
      st.(calls := st.calls[c := if Ready(call, st.socks[s], s) || (lastdata && s in call.read) then call
                                 else call.(quiet := call.quiet + {s})])
    case EndScan(c) =>
      var call := st.calls[c];
      st.(calls := st.calls[c := call.(phase := if call.quiet == call.Watched() then Waiting else Leaving)])
    case WakeUp(c) => st.(calls := st.calls[c := st.calls[c].(phase := Leaving)])
    case Uncount(c, s) =>
      st.(socks := st.socks[s := st.socks[s].(waiting := if st.socks[s].waiting > 0 then st.socks[s].waiting - 1 else 0)],
          calls := st.calls[c := st.calls[c].(counted := st.calls[c].counted - {s})])
    case Unlink(c) => st.(list := Without(st.list, c), version := st.version + 1, calls := st.calls - {c})
    case Raise(w, s, e) =>
      var st1 := st.(socks := st.socks[s := Occurs(st.socks[s], e)]);
      if st.socks[s].waiting == 0 || st.list == [] then st1 else TestEntry(st1, w, s, st.list[0])
    case Advance(w) =>
      var walk := st.walks[w];
      if walk.version != st.version then
        // someone has changed the list: start again
        if st.list == [] then st.(walks := st.walks - {w}) else TestEntry(st, w, walk.sock, st.list[0])
      else if walk.at in st.list && IndexOf(st.list, walk.at) + 1 < |st.list| then
        TestEntry(st, w, walk.sock, st.list[IndexOf(st.list, walk.at) + 1])
      else st.(walks := st.walks - {w})
  }

  // -------------------------------------------------------------- invariants

  ghost predicate Distinct(l: seq<CallId>) {
    forall i, j :: 0 <= i < j < |l| ==> l[i] != l[j]
  }

  /** The list holds exactly the calls in progress, once each. */
  ghost predicate ListOk(st: State) {
    && Distinct(st.list)
    && (forall c :: c in st.list <==> c in st.calls)
  }

  ghost function Counters(calls: map<CallId, Call>, s: Sock): set<CallId> {
    set c | c in calls && s in calls[c].counted
  }

  /** select_waiting is the number of calls that have counted themselves. */
  ghost predicate CountsOk(st: State) {
    forall s :: s in st.socks ==> st.socks[s].waiting == |Counters(st.calls, s)|
  }

  ghost predicate CallOk(c: Call, socks: map<Sock, SockState>) {
    && c.counted <= c.Watched() <= socks.Keys
    && c.quiet <= c.scanned <= c.Watched()
    && (c.phase.Counting? ==> c.scanned == {})
    && (c.phase.Scanning? || c.phase.Waiting? ==> c.counted == c.Watched())
    && (c.phase.Waiting? ==> c.quiet == c.Watched())
    && c.signals == (if c.signalled then 1 else 0)
  }

  ghost predicate CallsOk(st: State) {
    forall c :: c in st.calls ==> CallOk(st.calls[c], st.socks)
  }

  /** A walk that has seen the current list stands on an entry of it: it never follows one that has left. */
  ghost predicate WalksOk(st: State) {
    forall w :: w in st.walks ==>
      && st.walks[w].sock in st.socks && st.walks[w].version <= st.version
      && (st.walks[w].version == st.version ==> st.walks[w].at in st.list)
  }

  /** The walk has not yet tested entry `c`: it will start again, or `c` is still ahead. */
  ghost predicate YetToTest(st: State, w: Walk, c: CallId) {
    w.version != st.version || (w.at in st.list && c in st.list && IndexOf(st.list, w.at) < IndexOf(st.list, c))
  }

  ghost predicate Pending(st: State, s: Sock, c: CallId) {
    exists w :: w in st.walks && st.walks[w].sock == s && YetToTest(st, st.walks[w], c)
  }

  /** Call `c` scanned socket `s` as not ready, has not been signalled, and the socket is ready now. */
  ghost predicate Missed(st: State, c: CallId, s: Sock) {
    && c in st.calls && (st.calls[c].phase.Scanning? || st.calls[c].phase.Waiting?)
    && s in st.calls[c].quiet && !st.calls[c].signalled
    && s in st.socks && Ready(st.calls[c], st.socks[s], s)
  }

  /** No wake-up is lost: some walk for the socket still has to test the entry. */
  ghost predicate NoLostWakeUp(st: State) {
    forall c, s :: Missed(st, c, s) ==> Pending(st, s, c)
  }

  ghost predicate Inv(st: State) {
    ListOk(st) && CountsOk(st) && CallsOk(st) && WalksOk(st) && NoLostWakeUp(st)
  }

  // ------------------------------------------------------------- list lemmas

  lemma {:induction false} IndexUnique(l: seq<CallId>, i: nat)
    requires Distinct(l) && i < |l|
    ensures l[i] in l && IndexOf(l, l[i]) == i
  {
    assert l[IndexOf(l, l[i])] == l[i];
  }

  lemma DropDistinct(l: seq<CallId>, k: nat)
    requires Distinct(l) && k < |l|
    ensures Distinct(l[..k] + l[k + 1..])
  {
    var r := l[..k] + l[k + 1..];
    forall i, j | 0 <= i < j < |r|
      ensures r[i] != r[j]
    {
      assert r[i] == l[if i < k then i else i + 1] && r[j] == l[if j < k then j else j + 1];
    }
  }

  lemma DropMember(l: seq<CallId>, k: nat, x: CallId)
    requires Distinct(l) && k < |l|
    ensures x in l[..k] + l[k + 1..] <==> x in l && x != l[k]
  {
    var r := l[..k] + l[k + 1..];
    if x in l && x != l[k] {
      var i :| 0 <= i < |l| && l[i] == x;
      assert r[if i < k then i else i - 1] == x;
    }
  }

  lemma WithoutList(l: seq<CallId>, c: CallId)
    requires Distinct(l)
    ensures Distinct(Without(l, c))
    ensures forall x :: x in Without(l, c) <==> x in l && x != c
  {
    hide Distinct, IndexOf;
    if c in l {
      DropDistinct(l, IndexOf(l, c));
      forall x
        ensures x in Without(l, c) <==> x in l && x != c
      {
        DropMember(l, IndexOf(l, c), x);
      }
    }
  }

  /** How replacing, adding or removing one call changes the number of counted calls of a socket. */
  lemma CountersChange(calls: map<CallId, Call>, c: CallId, call: Call, s: Sock)
    ensures |Counters(calls[c := call], s)| == |Counters(calls, s)|
              - (if c in calls && s in calls[c].counted then 1 else 0) + (if s in call.counted then 1 else 0)
    ensures |Counters(calls - {c}, s)| == |Counters(calls, s)| - (if c in calls && s in calls[c].counted then 1 else 0)
  {
    var rest := Counters(calls - {c}, s);
    assert c !in rest;
    assert Counters(calls, s) == if c in calls && s in calls[c].counted then rest + {c} else rest;
    assert Counters(calls[c := call], s) == if s in call.counted then rest + {c} else rest;
  }

  // ------------------------------------------------------- every step keeps Inv

  /** A step that leaves list and walks alone loses no wake-up, if it makes nothing newly missed. */
  lemma SameWalks(st: State, st': State)
    requires NoLostWakeUp(st) && st'.list == st.list && st'.version == st.version && st'.walks == st.walks
    requires forall c, s :: Missed(st', c, s) ==> Missed(st, c, s)
    ensures NoLostWakeUp(st')
  {
    forall c, s | Missed(st', c, s)
      ensures Pending(st', s, c)
    {
      var w :| w in st.walks && st.walks[w].sock == s && YetToTest(st, st.walks[w], c);
      assert YetToTest(st', st'.walks[w], c);
    }
  }

  /** A step that changes the list sends every walk back to the start. */
  lemma NewVersion(st: State, st': State)
    requires NoLostWakeUp(st) && WalksOk(st) && st'.version == st.version + 1 && st'.walks == st.walks && st'.socks == st.socks
    requires forall c, s :: Missed(st', c, s) ==> Missed(st, c, s)
    ensures NoLostWakeUp(st') && WalksOk(st')
  {
    forall c, s | Missed(st', c, s)
      ensures Pending(st', s, c)
    {
      var w :| w in st.walks && st.walks[w].sock == s && YetToTest(st, st.walks[w], c);
      assert YetToTest(st', st'.walks[w], c);
    }
  }

  lemma LinkKeeps(st: State, c: CallId, call: Call)
    requires Inv(st) && Enabled(st, Link(c, call))
    ensures Inv(Do(st, Link(c, call)))
  {
    hide Counters, Pending, YetToTest, Ready;
    var st' := Do(st, Link(c, call));
    LinkList(st.list, c);
    forall s
      ensures |Counters(st'.calls, s)| == |Counters(st.calls, s)|
    {
      CountersChange(st.calls, c, call, s);
    }
    hide Distinct;
    NewVersion(st, st');
  }

  lemma LinkList(l: seq<CallId>, c: CallId)
    requires Distinct(l) && c !in l
    ensures Distinct([c] + l) && forall x :: x in [c] + l <==> x == c || x in l
  {
    assert forall i :: 0 <= i < |l| ==> ([c] + l)[i + 1] == l[i] && l[i] in l;
  }

  lemma UnlinkKeeps(st: State, c: CallId)
    requires Inv(st) && Enabled(st, Unlink(c))
    ensures Inv(Do(st, Unlink(c)))
  {
    hide Counters, Pending, YetToTest, Distinct, Without, Ready;
    var st' := Do(st, Unlink(c));
    WithoutList(st.list, c);
    forall s
      ensures |Counters(st'.calls, s)| == |Counters(st.calls, s)|
    {
      CountersChange(st.calls, c, st.calls[c], s);
    }
    NewVersion(st, st');
  }

  /** Steps that change the state of one call and perhaps one select_waiting, but neither list nor walks nor events. */
  lemma CallStepKeeps(st: State, st': State, c: CallId, call: Call)
    requires Inv(st) && c in st.calls && CallOk(call, st.socks)
    requires st'.list == st.list && st'.version == st.version && st'.walks == st.walks && st'.calls == st.calls[c := call]
    requires st'.socks.Keys == st.socks.Keys
    requires forall s :: s in st.socks ==>
               && st'.socks[s].(waiting := 0) == st.socks[s].(waiting := 0)
               && st'.socks[s].waiting == st.socks[s].waiting
                    - (if s in st.calls[c].counted then 1 else 0) + (if s in call.counted then 1 else 0)
    requires forall s :: Missed(st', c, s) ==> Missed(st, c, s)
    ensures Inv(st')
  {
    hide Counters, Pending, YetToTest, Distinct;
    forall s
      ensures |Counters(st'.calls, s)| == |Counters(st.calls, s)|
                - (if s in st.calls[c].counted then 1 else 0) + (if s in call.counted then 1 else 0)
    {
      CountersChange(st.calls, c, call, s);
    }
    forall d | d in st'.calls
      ensures CallOk(st'.calls[d], st'.socks)
    {
      if d != c {
        assert CallOk(st.calls[d], st.socks);
      }
    }
    forall d, s | Missed(st', d, s)
      ensures Missed(st, d, s)
    {
      assert st'.socks[s].(waiting := 0) == st.socks[s].(waiting := 0);
    }
    SameWalks(st, st');
  }

  lemma CountingKeeps(st: State, step: Step)
    requires Inv(st) && Enabled(st, step) && (step.Count? || step.Uncount?)
    ensures Inv(Do(st, step))
  {
    hide Pending, YetToTest, Distinct, NoLostWakeUp, WalksOk, ListOk;
    var st' := Do(st, step);
    var c, s := step.c, step.s;
    assert CallOk(st.calls[c], st.socks);
    assert step.Uncount? ==> st.socks[s].waiting > 0 by {
      if step.Uncount? {
        assert c in Counters(st.calls, s);
      }
    }
    CallStepKeeps(st, st', c, st'.calls[c]);
  }

  lemma PhaseKeeps(st: State, step: Step)
    requires Inv(st) && Enabled(st, step) && (step.StartScan? || step.Scan? || step.EndScan? || step.WakeUp?)
    ensures Inv(Do(st, step))
  {
    hide Pending, YetToTest, Distinct, NoLostWakeUp, WalksOk, ListOk, Counters;
    var st' := Do(st, step);
    assert CallOk(st.calls[step.c], st.socks);
    CallStepKeeps(st, st', step.c, st'.calls[step.c]);
  }

  // -------------------------------------------------------------------- walks

  /** All of the invariant that is not about missed events. */
  ghost predicate Base(st: State) {
    ListOk(st) && CountsOk(st) && CallsOk(st) && WalksOk(st)
  }

  lemma TestKeepsBase(st: State, w: WalkId, s: Sock, c: CallId)
    requires Base(st) && s in st.socks && c in st.list
    ensures Base(TestEntry(st, w, s, c))
  {
    hide Counters, Distinct, Ready;
    var st' := TestEntry(st, w, s, c);
    assert c in st.calls && CallOk(st.calls[c], st.socks);
    forall t
      ensures |Counters(st'.calls, t)| == |Counters(st.calls, t)|
    {
      CountersChange(st.calls, c, st'.calls[c], t);
    }
  }

  /** Testing an entry makes nothing newly missed, and not this socket for this entry. */
  lemma TestMisses(st: State, w: WalkId, s: Sock, c: CallId, d: CallId, t: Sock)
    requires s in st.socks && Missed(TestEntry(st, w, s, c), d, t)
    ensures Missed(st, d, t) && !(c in st.calls && d == c && t == s)
  {
  }

  /** A walk that stands on entry `i` of the current list has yet to test everything behind it. */
  lemma Ahead(st: State, w: WalkId, i: nat, c: CallId)
    requires ListOk(st) && w in st.walks && i < |st.list| && st.walks[w].at == st.list[i] && st.walks[w].version == st.version
    requires c in st.list && i < IndexOf(st.list, c)
    ensures YetToTest(st, st.walks[w], c)
  {
    IndexUnique(st.list, i);
  }

  lemma RaiseBase(st: State, w: WalkId, s: Sock, e: Event)
    requires Base(st) && Enabled(st, Raise(w, s, e))
    ensures Base(st.(socks := st.socks[s := Occurs(st.socks[s], e)])) && Base(Do(st, Raise(w, s, e)))
  {
    hide Counters, Distinct, Ready, TestEntry;
    var st1 := st.(socks := st.socks[s := Occurs(st.socks[s], e)]);
    assert forall c :: c in st.calls ==> CallOk(st.calls[c], st1.socks);
    assert Base(st1);
    if st.socks[s].waiting != 0 && st.list != [] {
      TestKeepsBase(st1, w, s, st.list[0]);
    }
  }

  /** What an event leaves missed was missed before on another socket, or is still to be tested. */
  lemma RaiseMisses(st: State, w: WalkId, s: Sock, e: Event, c: CallId, t: Sock)
    requires Base(st) && Enabled(st, Raise(w, s, e)) && Missed(Do(st, Raise(w, s, e)), c, t)
    ensures var st1 := st.(socks := st.socks[s := Occurs(st.socks[s], e)]);
            && Missed(st1, c, t) && (t != s ==> Missed(st, c, t))
            && (st.socks[s].waiting != 0 && st.list != [] && t == s ==> !(st.list[0] in st.calls && c == st.list[0]))
  {
    hide Counters, Distinct, CountsOk, CallsOk, WalksOk;
    var st1 := st.(socks := st.socks[s := Occurs(st.socks[s], e)]);
    if st.socks[s].waiting != 0 && st.list != [] {
      TestMisses(st1, w, s, st.list[0], c, t);
    }
  }

  lemma RaiseElsewhere(st: State, w: WalkId, s: Sock, e: Event, c: CallId, t: Sock)
    requires Inv(st) && Enabled(st, Raise(w, s, e)) && Missed(st, c, t) && t != s
    ensures Pending(Do(st, Raise(w, s, e)), t, c)
  {
    hide Counters, Distinct, CountsOk, CallsOk, Missed, Ready;
    var st' := Do(st, Raise(w, s, e));
    var v :| v in st.walks && st.walks[v].sock == t && YetToTest(st, st.walks[v], c);
    assert v in st'.walks && YetToTest(st', st'.walks[v], c);
  }

  /** The walk that an event starts will reach every call the event makes ready. */
  lemma RaiseCovers(st: State, w: WalkId, s: Sock, e: Event, c: CallId, t: Sock)
    requires Inv(st) && Base(st) && Enabled(st, Raise(w, s, e)) && Missed(Do(st, Raise(w, s, e)), c, t)
    ensures Pending(Do(st, Raise(w, s, e)), t, c)
  {
    var st1 := st.(socks := st.socks[s := Occurs(st.socks[s], e)]);
    var st' := Do(st, Raise(w, s, e));
    RaiseBase(st, w, s, e);
    RaiseMisses(st, w, s, e, c, t);
    if t != s {
      RaiseElsewhere(st, w, s, e, c, t);
    } else {
      MissedIsCounted(st1, c, s);
      IndexUnique(st.list, 0);
      Ahead(st', w, 0, c);
      assert st'.walks[w].sock == t;
    }
  }

  lemma RaiseKeeps(st: State, w: WalkId, s: Sock, e: Event)
    requires Inv(st) && Enabled(st, Raise(w, s, e))
    ensures Inv(Do(st, Raise(w, s, e)))
  {
    RaiseBase(st, w, s, e);
    hide Do, Missed, Pending, ListOk, CountsOk, CallsOk, WalksOk;
    forall c, t | Missed(Do(st, Raise(w, s, e)), c, t)
      ensures Pending(Do(st, Raise(w, s, e)), t, c)
    {
      RaiseCovers(st, w, s, e, c, t);
    }
  }

  /** A call that may miss an event has counted itself for the socket. */
  lemma MissedIsCounted(st: State, c: CallId, s: Sock)
    requires CountsOk(st) && CallsOk(st) && ListOk(st) && Missed(st, c, s)
    ensures st.socks[s].waiting > 0 && c in st.list && st.list != []
  {
    assert CallOk(st.calls[c], st.socks);
    assert c in Counters(st.calls, s);
  }

  /** The entry a walk goes to next, if any. */
  ghost function NextEntry(st: State, walk: Walk): (i: int)
    ensures -1 <= i < |st.list|
  {
    if walk.version != st.version then (if st.list == [] then -1 else 0)
    else if walk.at in st.list && IndexOf(st.list, walk.at) + 1 < |st.list| then IndexOf(st.list, walk.at) + 1
    else -1
  }

  /** An entry that a walk has yet to test is the next one or behind it. */
  lemma NextOrBehind(st: State, walk: Walk, c: CallId)
    requires ListOk(st) && YetToTest(st, walk, c) && c in st.list
    ensures 0 <= NextEntry(st, walk) <= IndexOf(st.list, c)
  {
  }

  /** What Advance does, by the number of the next entry. */
  lemma AdvanceGoes(st: State, w: WalkId)
    requires Enabled(st, Advance(w))
    ensures var walk := st.walks[w];
            var i := NextEntry(st, walk);
            Do(st, Advance(w)) == if i < 0 then st.(walks := st.walks - {w}) else TestEntry(st, w, walk.sock, st.list[i])
  {
  }

  lemma AdvanceCovers(st: State, w: WalkId, c: CallId, t: Sock)
    requires Inv(st) && Enabled(st, Advance(w)) && Missed(Do(st, Advance(w)), c, t) && Base(Do(st, Advance(w)))
    ensures Pending(Do(st, Advance(w)), t, c)
  {
    hide Do, Ready, Tested, Distinct, Counters, CountsOk, CallsOk;
    var walk, i := st.walks[w], NextEntry(st, st.walks[w]);
    var st' := Do(st, Advance(w));
    AdvanceGoes(st, w);
    if i >= 0 {
      TestMisses(st, w, walk.sock, st.list[i], c, t);
      assert st.list[i] in st.calls;
    }
    assert Missed(st, c, t);
    var v :| v in st.walks && st.walks[v].sock == t && YetToTest(st, st.walks[v], c);
    if v != w {
      assert v in st'.walks && YetToTest(st', st'.walks[v], c);
    } else {
      NextOrBehind(st, walk, c);
      Ahead(st', w, i, c);
      assert st'.walks[w].sock == t;
    }
  }

  lemma AdvanceKeeps(st: State, w: WalkId)
    requires Inv(st) && Enabled(st, Advance(w))
    ensures Inv(Do(st, Advance(w)))
  {
    hide Do, Missed, Pending, Counters, Distinct, TestEntry;
    var i := NextEntry(st, st.walks[w]);
    AdvanceGoes(st, w);
    if i >= 0 {
      TestKeepsBase(st, w, st.walks[w].sock, st.list[i]);
    }
    assert Base(Do(st, Advance(w)));
    forall c, t | Missed(Do(st, Advance(w)), c, t)
      ensures Pending(Do(st, Advance(w)), t, c)
    {
      AdvanceCovers(st, w, c, t);
    }
  }

  // --------------------------------------------------------------------- runs

  lemma StepKeeps(st: State, step: Step)
    requires Inv(st) && Enabled(st, step)
    ensures Inv(Do(st, step))
  {
    hide Inv, Do, Enabled;
    match step {
      case Link(c, call) => LinkKeeps(st, c, call);
      case Unlink(c) => UnlinkKeeps(st, c);
      case Count(_, _) => CountingKeeps(st, step);
      case Uncount(_, _) => CountingKeeps(st, step);
      case Raise(w, s, e) => RaiseKeeps(st, w, s, e);
      case Advance(w) => AdvanceKeeps(st, w);
      case _ => PhaseKeeps(st, step);
    }
  }

  /** A run: every step is possible where it is taken. */
  ghost predicate Possible(st: State, steps: seq<Step>)
    decreases |steps|
  {
    steps != [] ==> Enabled(st, steps[0]) && Possible(Do(st, steps[0]), steps[1..])
  }

  ghost function After(st: State, steps: seq<Step>): State
    requires Possible(st, steps)
    decreases |steps|
  {
    if steps == [] then st else After(Do(st, steps[0]), steps[1..])
  }

  /** Every interleaving keeps the invariant: no wake-up is lost, no walk leaves the list, no semaphore is signalled twice. */
  lemma {:induction false} EveryRun(st: State, steps: seq<Step>)
    requires Inv(st) && Possible(st, steps)
    ensures Inv(After(st, steps))
    decreases |steps|
  {
    if steps != [] {
      StepKeeps(st, steps[0]);
      EveryRun(Do(st, steps[0]), steps[1..]);
    }
  }

  /** The protocol starts with an empty list and idle sockets. */
  lemma Initially(socks: map<Sock, SockState>)
    requires forall s :: s in socks ==> socks[s].waiting == 0
    ensures Inv(State(socks, [], 0, map[], map[]))
  {
    var st := State(socks, [], 0, map[], map[]);
    forall s | s in st.socks
      ensures |Counters(st.calls, s)| == 0
    {
      assert Counters(st.calls, s) == {};
    }
  }

  /** When all callbacks have finished, a sleeping call with a socket that is ready has been signalled, exactly once. */
  lemma WaitersAreWoken(st: State, c: CallId, s: Sock)
    requires Inv(st) && st.walks == map[] && c in st.calls && st.calls[c].phase.Waiting?
    requires s in st.socks
    requires var call, k := st.calls[c], st.socks[s];
             (s in call.read && k.rcv > 0) || (s in call.write && k.send) || (s in call.except && k.err)
    ensures st.calls[c].signalled && st.calls[c].signals == 1
  {
    assert CallOk(st.calls[c], st.socks);
    assert !Pending(st, s, c);
    assert !Missed(st, c, s);
  }

  // ---------------------------------------------------------------- progress

  /** The events of a socket add up: received packets are counted, the last send event holds, an error stays. */
  ghost function Events(k: SockState, es: seq<Event>): SockState {
    if es == [] then k else Occurs(Events(k, es[..|es| - 1]), es[|es| - 1])
  }

  lemma {:induction false} EventsAddUp(k: SockState, es: seq<Event>)
    ensures var r := Events(k, es);
            && r.rcv == k.rcv + multiset(es)[RcvPlus] - multiset(es)[RcvMinus]
            && (r.err <==> k.err || Error in es) && r.waiting == k.waiting
            && (SendPlus !in es && SendMinus !in es ==> r.send == k.send)
    ensures es != [] && es[|es| - 1] == SendPlus ==> Events(k, es).send
    ensures es != [] && es[|es| - 1] == SendMinus ==> !Events(k, es).send
  {
    if es != [] {
      var n := |es| - 1;
      EventsAddUp(k, es[..n]);
      LastCounted(es, RcvPlus);
      LastCounted(es, RcvMinus);
      LastCounted(es, SendPlus);
      LastCounted(es, SendMinus);
      LastCounted(es, Error);
    }
  }

  lemma LastCounted(es: seq<Event>, e: Event)
    requires es != []
    ensures var n := |es| - 1;
            && multiset(es)[e] == multiset(es[..n])[e] + (if es[n] == e then 1 else 0)
            && (e in es <==> e in es[..n] || es[n] == e)
  {
    assert es == es[..|es| - 1] + [es[|es| - 1]];
  }

  /** The list changes only when a call comes or goes, and whenever it does, the version tells. */
  lemma ChangesAreTold(st: State, step: Step)
    requires Inv(st) && Enabled(st, step)
    ensures Do(st, step).version == st.version + if step.Link? || step.Unlink? then 1 else 0
    ensures Do(st, step).list != st.list <==> step.Link? || step.Unlink?
  {
    hide Counters, Pending, YetToTest, NoLostWakeUp, CountsOk, WalksOk;
    match step {
      case Link(c, call) => assert ([c] + st.list)[1..] == st.list && |[c] + st.list| == |st.list| + 1;
      case Unlink(c) =>
        assert c in st.list;
        WithoutList(st.list, c);
      case _ =>
    }
  }

  /** A call is signalled only for an event that it waits for. */
  lemma SignalledForAReason(st: State, step: Step, c: CallId)
    requires Enabled(st, step) && c in st.calls && !st.calls[c].signalled
    requires c in Do(st, step).calls && Do(st, step).calls[c].signalled
    ensures step.Raise? || step.Advance?
    ensures var s := if step.Raise? then step.s else st.walks[step.w].sock;
            var k := Do(st, step).socks;
            && s in k
            && var call := st.calls[c];
               (s in call.read && k[s].rcv > 0) || (s in call.write && k[s].send) || (s in call.except && k[s].err)
  {
  }

  /** What a scan finds: nothing to read, also not left over in `left`, nothing to write, no error. */
  predicate Idle(c: Call, k: map<Sock, SockState>, s: Sock, left: set<Sock>)
    requires s in k
  {
    && (s in c.read ==> k[s].rcv <= 0 && s !in left)
    && (s in c.write ==> !k[s].send)
    && (s in c.except ==> !k[s].err)
  }

  /** A scan over some sockets, one after the other. */
  function Scans(c: CallId, order: seq<Sock>, left: set<Sock>): seq<Step> {
    if order == [] then [EndScan(c)] else [Scan(c, order[0], order[0] in left)] + Scans(c, order[1..], left)
  }

  /** The sockets still to be scanned, each once. */
  ghost predicate StillToScan(call: Call, order: seq<Sock>) {
    && (forall s :: s in order <==> s in call.Watched() && s !in call.scanned)
    && (forall i, j :: 0 <= i < j < |order| ==> order[i] != order[j])
  }

  lemma ScanOne(st: State, c: CallId, order: seq<Sock>, left: set<Sock>)
    requires c in st.calls && st.calls[c].phase.Scanning? && CallOk(st.calls[c], st.socks)
    requires order != [] && StillToScan(st.calls[c], order)
    ensures Enabled(st, Scan(c, order[0], order[0] in left))
    ensures var call, st' := st.calls[c], Do(st, Scan(c, order[0], order[0] in left));
            var call' := st'.calls[c];
            && call'.quiet == call.quiet + (if Idle(call, st.socks, order[0], left) then {order[0]} else {})
            && call'.phase.Scanning? && CallOk(call', st'.socks) && StillToScan(call', order[1..])
            && call'.read == call.read && call'.write == call.write && call'.except == call.except
            && st'.socks == st.socks && c in st'.calls && call'.scanned == call.scanned + {order[0]}
            && order[0] !in call.scanned && call.quiet <= call.scanned && forall s :: s in order ==> s in st.socks
  {
    assert order[0] in order;
    assert order == [order[0]] + order[1..];
  }

  /**
   * The second scan puts the call to sleep if and only if it finds every socket idle: it never sleeps over an event,
   * and it does not spin.
   */
  lemma {:induction false} SleepsIffIdle(st: State, c: CallId, order: seq<Sock>, left: set<Sock>)
    requires c in st.calls && st.calls[c].phase.Scanning? && CallOk(st.calls[c], st.socks)
    requires StillToScan(st.calls[c], order)
    ensures Possible(st, Scans(c, order, left)) && c in After(st, Scans(c, order, left)).calls
    ensures var call := st.calls[c];
            After(st, Scans(c, order, left)).calls[c].phase
            == if call.quiet == call.scanned && (forall s :: s in order ==> Idle(call, st.socks, s, left)) then Waiting else Leaving
    decreases |order|
  {
    hide Do, Enabled, CallOk, Ready;
    if order == [] {
      ScanEnds(st, c);
      assert [EndScan(c)][1..] == [];
    } else {
      ScanOne(st, c, order, left);
      var first, rest := Scan(c, order[0], order[0] in left), Scans(c, order[1..], left);
      assert ([first] + rest)[1..] == rest;
      SleepsIffIdle(Do(st, first), c, order[1..], left);
      QuietStays(st.calls[c], order, Do(st, first).calls[c], st.socks, left);
    }
  }

  lemma ScanEnds(st: State, c: CallId)
    requires c in st.calls && st.calls[c].phase.Scanning? && CallOk(st.calls[c], st.socks) && StillToScan(st.calls[c], [])
    ensures Enabled(st, EndScan(c)) && c in Do(st, EndScan(c)).calls
    ensures var call := st.calls[c]; Do(st, EndScan(c)).calls[c].phase == if call.quiet == call.scanned then Waiting else Leaving
  {
    assert forall s :: s in st.calls[c].Watched() ==> s in st.calls[c].scanned;
  }

  /** All was quiet and the rest is idle, before a socket is scanned exactly if afterwards. */
  lemma QuietStays(call: Call, order: seq<Sock>, call': Call, k: map<Sock, SockState>, left: set<Sock>)
    requires order != [] && (forall s :: s in order ==> s in k) && order[0] !in call.scanned && call.quiet <= call.scanned
    requires call'.scanned == call.scanned + {order[0]}
    requires call'.quiet == call.quiet + (if Idle(call, k, order[0], left) then {order[0]} else {})
    requires call'.read == call.read && call'.write == call.write && call'.except == call.except
    ensures call.quiet == call.scanned && (forall s :: s in order ==> Idle(call, k, s, left))
            <==> call'.quiet == call'.scanned && (forall s :: s in order[1..] ==> Idle(call', k, s, left))
  {
    assert order == [order[0]] + order[1..];
    assert forall s :: s in order <==> s == order[0] || s in order[1..];
    assert order[0] in call'.scanned;
    if call'.quiet == call'.scanned {
      assert order[0] in call'.quiet;
      assert call.quiet == call'.quiet - {order[0]} && call.scanned == call'.scanned - {order[0]};
    }
  }

  /** The rest of a walk, when nothing else happens. */
  function Advances(w: WalkId, n: nat): seq<Step> {
    if n == 0 then [] else [Advance(w)] + Advances(w, n - 1)
  }

  /** How many steps a walk still takes. */
  ghost function StepsLeft(st: State, walk: Walk): nat {
    if walk.version != st.version || walk.at !in st.list then |st.list| + 1 else |st.list| - IndexOf(st.list, walk.at)
  }

  /** The same call, but for its signal. */
  predicate SameCall(a: Call, b: Call) {
    a.(signalled := false, signals := 0) == b.(signalled := false, signals := 0)
  }

  ghost predicate OnlySignals(st: State, st': State) {
    && st'.socks == st.socks && st'.list == st.list && st'.version == st.version && st'.calls.Keys == st.calls.Keys
    && forall c :: c in st.calls ==> SameCall(st.calls[c], st'.calls[c])
  }

  lemma TestOnlySignals(st: State, w: WalkId, s: Sock, c: CallId)
    requires s in st.socks && c in st.calls
    ensures var st' := TestEntry(st, w, s, c);
            OnlySignals(st, st') && st'.walks == st.walks[w := Walk(s, c, st.version)]
  {
    hide Ready;
  }

  lemma AdvanceOnlySignals(st: State, w: WalkId)
    requires ListOk(st) && WalksOk(st) && w in st.walks
    ensures var st', i := Do(st, Advance(w)), NextEntry(st, st.walks[w]);
            && Enabled(st, Advance(w)) && OnlySignals(st, st')
            && st'.walks == if i < 0 then st.walks - {w} else st.walks[w := Walk(st.walks[w].sock, st.list[i], st.version)]
  {
    hide Do, TestEntry;
    AdvanceGoes(st, w);
    var i := NextEntry(st, st.walks[w]);
    if i >= 0 {
      hide OnlySignals, NextEntry;
      assert st.list[i] in st.calls;
      TestOnlySignals(st, w, st.walks[w].sock, st.list[i]);
    }
  }

  lemma NextIsNearer(st: State, walk: Walk)
    requires ListOk(st) && NextEntry(st, walk) >= 0
    ensures StepsLeft(st, Walk(walk.sock, st.list[NextEntry(st, walk)], st.version)) < StepsLeft(st, walk)
  {
    IndexUnique(st.list, NextEntry(st, walk));
  }

  lemma AdvanceProgress(st: State, w: WalkId)
    requires Inv(st) && w in st.walks
    ensures Enabled(st, Advance(w)) && Inv(Do(st, Advance(w))) && OnlySignals(st, Do(st, Advance(w)))
    ensures var st' := Do(st, Advance(w));
            && st'.walks - {w} == st.walks - {w}
            && (w in st'.walks ==> StepsLeft(st', st'.walks[w]) < StepsLeft(st, st.walks[w]))
  {
    hide Do, Inv, NextEntry, ListOk, WalksOk;
    InvParts(st);
    AdvanceOnlySignals(st, w);
    AdvanceKeeps(st, w);
    if NextEntry(st, st.walks[w]) >= 0 {
      NextIsNearer(st, st.walks[w]);
    }
  }

  lemma InvParts(st: State)
    requires Inv(st)
    ensures ListOk(st) && WalksOk(st)
  {
  }

  /** Left alone, a walk ends. */
  lemma {:induction false} WalkEnds(st: State, w: WalkId) returns (n: nat)
    requires Inv(st) && w in st.walks
    ensures Possible(st, Advances(w, n))
    ensures var st' := After(st, Advances(w, n)); Inv(st') && st'.walks == st.walks - {w} && OnlySignals(st, st')
    decreases StepsLeft(st, st.walks[w])
  {
    hide Inv, Do, Enabled, NoLostWakeUp, ListOk, WalksOk;
    AdvanceProgress(st, w);
    var st1 := Do(st, Advance(w));
    n := 0;
    if w in st1.walks {
      n := WalkEnds(st1, w);
    }
    assert ([Advance(w)] + Advances(w, n))[1..] == Advances(w, n);
    n := n + 1;
  }

  /**
   * An event wakes whoever waits for it: data for a reader, room for a writer, an error for a call that watches for one.
   * With no other callback under way, the walk it starts ends, and the sleeping call has been signalled exactly once.
   */
  lemma EventWakes(st: State, w: WalkId, s: Sock, e: Event, c: CallId) returns (n: nat)
    requires Inv(st) && st.walks == map[] && s in st.socks && c in st.calls && st.calls[c].phase.Waiting?
    requires var call := st.calls[c];
             || (e == RcvPlus && s in call.read && st.socks[s].rcv >= 0)
             || (e == SendPlus && s in call.write) || (e == Error && s in call.except)
    ensures Possible(st, [Raise(w, s, e)] + Advances(w, n))
    ensures var st' := After(st, [Raise(w, s, e)] + Advances(w, n));
            st'.walks == map[] && c in st'.calls && st'.calls[c].signalled && st'.calls[c].signals == 1
  {
    hide Do, Inv;
    var step := Raise(w, s, e);
    var st1 := Do(st, step);
    RaiseKeeps(st, w, s, e);
    RaiseHappens(st, w, s, e);
    n := 0;
    if w in st1.walks {
      n := WalkEnds(st1, w);
    }
    assert ([step] + Advances(w, n))[1..] == Advances(w, n);
    var st' := After(st1, Advances(w, n));
    assert SameCall(st.calls[c], st1.calls[c]) && SameCall(st1.calls[c], st'.calls[c]);
    hide After, Possible, Advances;
    WaitersAreWoken(st', c, s);
  }

  /** An event is recorded in its socket, and at most the new walk is under way. */
  lemma RaiseHappens(st: State, w: WalkId, s: Sock, e: Event)
    requires Inv(st) && st.walks == map[] && s in st.socks
    ensures Enabled(st, Raise(w, s, e))
    ensures var st' := Do(st, Raise(w, s, e));
            && st'.socks == st.socks[s := Occurs(st.socks[s], e)] && st'.walks - {w} == map[] && st'.calls.Keys == st.calls.Keys
            && forall c :: c in st.calls ==> SameCall(st.calls[c], st'.calls[c])
  {
    hide Ready, Occurs, Inv;
    InvParts(st);
    if st.socks[s].waiting != 0 && st.list != [] {
      assert st.list[0] in st.calls;
      TestOnlySignals(st.(socks := st.socks[s := Occurs(st.socks[s], e)]), w, s, st.list[0]);
    }
  }
}
