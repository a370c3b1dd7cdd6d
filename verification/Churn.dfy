/** The destructive set probes against a server that applies one command at a time. Each
    connection re-adds a name of its own on even sequence numbers and takes a member away on odd
    ones; which connection goes next, and which member SPOP draws, is up to the schedule. */
module Churn {
  import opened Names

  /** How a connection names what it adds at a sequence number; one name never serves twice. */
  type Naming = (nat, nat) -> Name

  ghost predicate Distinct(f: Naming) {
    forall c: nat, k: nat, c': nat, k': nat :: f(c, k) == f(c', k') ==> c == c' && k == k'
  }

  function Refill(): Naming { (conn: nat, seqNo: nat) => RefillName(conn, seqNo) }

  lemma RefillDistinct()
    ensures Distinct(Refill())
  {
    forall c: nat, k: nat, c': nat, k': nat | Refill()(c, k) == Refill()(c', k') ensures c == c' && k == k' {
      RefillNameInjective(c, k, c', k');
    }
  }

  datatype State = State(members: set<Name>, next: seq<nat>)

  /** One command: the connection that goes, and the member SPOP would draw. */
  datatype Event = Event(conn: nat, pick: Name)

  function Start(members: set<Name>, connections: nat): State {
    State(members, seq(connections, i => 0))
  }

  /** Connections whose next command takes a member away. */
  function Odd(next: seq<nat>): nat {
    if next == [] then 0 else Odd(next[..|next| - 1]) + next[|next| - 1] % 2
  }

  lemma {:induction false} OddUpdate(next: seq<nat>, c: nat, v: nat)
    requires c < |next|
    ensures Odd(next[c := v]) == Odd(next) - next[c] % 2 + v % 2
    ensures Odd(next) >= next[c] % 2
  {
    var n := |next| - 1;
    if c == n {
      assert next[c := v][..n] == next[..n];
    } else {
      assert next[c := v][..n] == next[..n][c := v];
      OddUpdate(next[..n], c, v);
    }
  }

  /** One command on: one more or one fewer connection owes a removal. */
  lemma OddStep(next: seq<nat>, c: nat)
    requires c < |next|
    ensures Odd(next[c := next[c] + 1]) == Odd(next) + (if next[c] % 2 == 0 then 1 else -1)
    ensures next[c] % 2 == 1 ==> Odd(next) >= 1
  {
    OddUpdate(next, c, next[c] + 1);
  }

  lemma {:induction false} OddOfStart(connections: nat)
    ensures Odd(Start({}, connections).next) == 0
  {
    var next := Start({}, connections).next;
    if connections > 0 {
      OddOfStart(connections - 1);
      assert next[..connections - 1] == Start({}, connections - 1).next;
    }
  }

  // ---- SREM: take back the name added just before ----

  function SremStep(f: Naming, s: State, c: nat): State {
    if c >= |s.next| then s else
    var k := s.next[c];
    State(if k % 2 == 0 then s.members + {f(c, k)} else s.members - {f(c, k - 1)},
          s.next[c := k + 1])
  }

  function SremRun(f: Naming, s: State, schedule: seq<nat>): State {
    if schedule == [] then s else SremStep(f, SremRun(f, s, schedule[..|schedule| - 1]), schedule[|schedule| - 1])
  }

  /** The connection has this name in the set right now. */
  ghost predicate Held(f: Naming, next: seq<nat>, n: Name) {
    exists c :: 0 <= c < |next| && next[c] % 2 == 1 && n == f(c, next[c] - 1)
  }

  /** The connection has added and removed this name. */
  ghost predicate Gone(f: Naming, next: seq<nat>, n: Name) {
    exists c, e: nat :: 0 <= c < |next| && e % 2 == 0 && e + 1 < next[c] && n == f(c, e)
  }

  /** Membership after any number of commands, from any starting set. */
  ghost predicate SremInv(f: Naming, s: State, start: set<Name>) {
    forall n: Name :: n in s.members <==> (n in start && !Gone(f, s.next, n)) || Held(f, s.next, n)
  }

  lemma HeldKept(f: Naming, next: seq<nat>, c: nat, n: Name)
    requires c < |next| && Held(f, next, n) && (next[c] % 2 == 1 ==> n != f(c, next[c] - 1))
    ensures Held(f, next[c := next[c] + 1], n)
  {
    var d :| 0 <= d < |next| && next[d] % 2 == 1 && n == f(d, next[d] - 1);
    assert next[c := next[c] + 1][d] == next[d];
  }

  lemma HeldFrom(f: Naming, next: seq<nat>, c: nat, n: Name)
    requires Distinct(f)
    requires c < |next| && Held(f, next[c := next[c] + 1], n)
    ensures Held(f, next, n) || (next[c] % 2 == 0 && n == f(c, next[c]))
    ensures next[c] % 2 == 1 ==> n != f(c, next[c] - 1)
  {
    var next' := next[c := next[c] + 1];
    var d :| 0 <= d < |next'| && next'[d] % 2 == 1 && n == f(d, next'[d] - 1);
    if d != c {
      assert next[d] == next'[d];
    }
  }

  lemma HeldNew(f: Naming, next: seq<nat>, c: nat)
    requires c < |next| && next[c] % 2 == 0
    ensures Held(f, next[c := next[c] + 1], f(c, next[c]))
  {
    assert next[c := next[c] + 1][c] == next[c] + 1;
  }

  lemma HeldAfter(f: Naming, next: seq<nat>, c: nat, n: Name)
    requires Distinct(f)
    requires c < |next|
    ensures Held(f, next[c := next[c] + 1], n) <==>
            (if next[c] % 2 == 0 then Held(f, next, n) || n == f(c, next[c])
             else Held(f, next, n) && n != f(c, next[c] - 1))
  {
    if Held(f, next[c := next[c] + 1], n) {
      HeldFrom(f, next, c, n);
    } else if next[c] % 2 == 0 && n == f(c, next[c]) {
      HeldNew(f, next, c);
    } else if Held(f, next, n) && (next[c] % 2 == 1 ==> n != f(c, next[c] - 1)) {
      HeldKept(f, next, c, n);
    }
  }

  lemma GoneAfter(f: Naming, next: seq<nat>, c: nat, n: Name)
    requires Distinct(f)
    requires c < |next|
    ensures var next' := next[c := next[c] + 1];
            Gone(f, next', n) <==> Gone(f, next, n) || (next[c] % 2 == 1 && n == f(c, next[c] - 1))
  {
    var k := next[c];
    var next' := next[c := k + 1];
    if Gone(f, next, n) {
      var d, e: nat :| 0 <= d < |next| && e % 2 == 0 && e + 1 < next[d] && n == f(d, e);
      assert e + 1 < next'[d];
    }
    if Gone(f, next', n) {
      var d, e: nat :| 0 <= d < |next'| && e % 2 == 0 && e + 1 < next'[d] && n == f(d, e);
      if d == c && e + 1 == k {
      } else {
        assert e + 1 < next[d];
      }
    }
    if k % 2 == 1 && n == f(c, k - 1) {
      assert (k - 1) % 2 == 0 && k - 1 + 1 < next'[c];
    }
  }

  /** A name is not both behind a connection and in its hand. */
  lemma HeldNotGone(f: Naming, next: seq<nat>, n: Name)
    requires Distinct(f)
    ensures !(Held(f, next, n) && Gone(f, next, n))
  {
  }

  lemma SremStepInv(f: Naming, s: State, start: set<Name>, c: nat)
    requires Distinct(f)
    requires SremInv(f, s, start)
    ensures SremInv(f, SremStep(f, s, c), start)
  {
    if c < |s.next| {
      var s' := SremStep(f, s, c);
      forall n: Name ensures n in s'.members <==> (n in start && !Gone(f, s'.next, n)) || Held(f, s'.next, n) {
        HeldAfter(f, s.next, c, n);
        GoneAfter(f, s.next, c, n);
        HeldNotGone(f, s.next, n);
      }
    }
  }

  lemma {:induction false} SremRunInv(f: Naming, start: set<Name>, connections: nat, schedule: seq<nat>)
    requires Distinct(f)
    ensures SremInv(f, SremRun(f, Start(start, connections), schedule), start)
    ensures |SremRun(f, Start(start, connections), schedule).next| == connections
  {
    if schedule != [] {
      var n := |schedule| - 1;
      SremRunInv(f, start, connections, schedule[..n]);
      SremStepInv(f, SremRun(f, Start(start, connections), schedule[..n]), start, schedule[n]);
    }
  }

  /** Every odd-sequence SREM finds its member, from any starting set: also when the sequence
      numbers restart after a warmup that left refill names behind. */
  lemma {:induction false} SremAlwaysHits(f: Naming, start: set<Name>, connections: nat, schedule: seq<nat>, c: nat)
    requires Distinct(f)
    requires c < connections
    ensures var s := SremRun(f, Start(start, connections), schedule);
            |s.next| == connections && (s.next[c] % 2 == 1 ==> f(c, s.next[c] - 1) in s.members)
  {
    SremRunInv(f, start, connections, schedule);
    var s := SremRun(f, Start(start, connections), schedule);
    if s.next[c] % 2 == 1 {
      assert Held(f, s.next, f(c, s.next[c] - 1));
    }
  }

  /** No name of the set is one that a connection adds. */
  ghost predicate Clean(f: Naming, members: set<Name>, connections: nat) {
    forall c: nat, k: nat :: c < connections && k % 2 == 0 ==> f(c, k) !in members
  }

  /** An add from a clean start is of a new member; a removal is of a present one. */
  lemma SremEffect(f: Naming, s: State, start: set<Name>, c: nat)
    requires Distinct(f) && SremInv(f, s, start) && Clean(f, start, |s.next|) && c < |s.next|
    ensures s.next[c] % 2 == 0 ==> f(c, s.next[c]) !in s.members
    ensures s.next[c] % 2 == 1 ==> f(c, s.next[c] - 1) in s.members
  {
    if s.next[c] % 2 == 0 {
      NotHeldYet(f, s.next, c);
    } else {
      assert Held(f, s.next, f(c, s.next[c] - 1));
    }
  }

  lemma AddSize<T>(m: set<T>, x: T)
    ensures |m + {x}| == |m| + (if x in m then 0 else 1)
  {
    if x in m {
      assert m + {x} == m;
    }
  }

  lemma TakeSize<T>(m: set<T>, x: T)
    ensures |m - {x}| == |m| - (if x in m then 1 else 0)
  {
    AddSize(m - {x}, x);
    assert m - {x} + {x} == if x in m then m else m + {x};
    AddSize(m, x);
  }

  /** A new member and one more removal owed; a member gone and one fewer owed. */
  lemma AddBalance(members: set<Name>, next: seq<nat>, c: nat, n: Name)
    requires c < |next| && next[c] % 2 == 0 && n !in members
    ensures |members + {n}| - Odd(next[c := next[c] + 1]) == |members| - Odd(next)
  {
    OddStep(next, c);
    AddSize(members, n);
  }

  lemma TakeBalance(members: set<Name>, next: seq<nat>, c: nat, n: Name)
    requires c < |next| && next[c] % 2 == 1 && n in members
    ensures |members - {n}| - Odd(next[c := next[c] + 1]) == |members| - Odd(next)
  {
    OddStep(next, c);
    TakeSize(members, n);
  }

  lemma SremStepPopulation(f: Naming, s: State, c: nat)
    requires c < |s.next|
    requires s.next[c] % 2 == 0 ==> f(c, s.next[c]) !in s.members
    requires s.next[c] % 2 == 1 ==> f(c, s.next[c] - 1) in s.members
    ensures |SremStep(f, s, c).members| - Odd(SremStep(f, s, c).next) == |s.members| - Odd(s.next)
  {
    if s.next[c] % 2 == 0 {
      AddBalance(s.members, s.next, c, f(c, s.next[c]));
    } else {
      TakeBalance(s.members, s.next, c, f(c, s.next[c] - 1));
    }
  }

  /** From a set without refill names the population is the start plus the names in hand. */
  lemma {:induction false} SremPopulation(f: Naming, start: set<Name>, connections: nat, schedule: seq<nat>)
    requires Distinct(f)
    requires Clean(f, start, connections)
    ensures var s := SremRun(f, Start(start, connections), schedule);
            |s.members| == |start| + Odd(s.next)
  {
    if schedule == [] {
      OddOfStart(connections);
    } else {
      var n := |schedule| - 1;
      SremPopulation(f, start, connections, schedule[..n]);
      SremRunInv(f, start, connections, schedule[..n]);
      var s := SremRun(f, Start(start, connections), schedule[..n]);
      if schedule[n] < connections {
        SremEffect(f, s, start, schedule[n]);
        SremStepPopulation(f, s, schedule[n]);
      }
    }
  }

  lemma NotHeldYet(f: Naming, next: seq<nat>, c: nat)
    requires Distinct(f)
    requires c < |next|
    ensures !Held(f, next, f(c, next[c]))
  {
  }

  // ---- SPOP: take any member ----

  /** SPOP of a member that is not there is a schedule entry no server produces: it does nothing. */
  function SpopStep(f: Naming, s: State, e: Event): State {
    if e.conn >= |s.next| then s else
    var k := s.next[e.conn];
    if k % 2 == 0 then State(s.members + {f(e.conn, k)}, s.next[e.conn := k + 1])
    else if s.members == {} then State(s.members, s.next[e.conn := k + 1])
    else if e.pick in s.members then State(s.members - {e.pick}, s.next[e.conn := k + 1])
    else s
  }

  function SpopRun(f: Naming, s: State, schedule: seq<Event>): State {
    if schedule == [] then s else SpopStep(f, SpopRun(f, s, schedule[..|schedule| - 1]), schedule[|schedule| - 1])
  }

  /** Members some connection will still try to add: each such add will change nothing. */
  ghost function Future(f: Naming, s: State): set<Name> {
    set n | n in s.members && ToCome(f, s.next, n)
  }

  ghost predicate ToCome(f: Naming, next: seq<nat>, n: Name) {
    exists c, e: nat :: 0 <= c < |next| && e % 2 == 0 && next[c] <= e && n == f(c, e)
  }

  /** There is a member for every pop already owed and one for every add that will be in vain. */
  ghost predicate Enough(f: Naming, s: State) { |Future(f, s)| + Odd(s.next) <= |s.members| }

  lemma ToComeAfter(f: Naming, next: seq<nat>, c: nat, n: Name)
    requires Distinct(f)
    requires c < |next|
    ensures var next' := next[c := next[c] + 1];
            && (ToCome(f, next', n) ==> ToCome(f, next, n))
            && (next[c] % 2 == 0 ==> ToCome(f, next, f(c, next[c])) && !ToCome(f, next', f(c, next[c])))
  {
    var k := next[c];
    var next' := next[c := k + 1];
    if ToCome(f, next', n) {
      var d, e: nat :| 0 <= d < |next'| && e % 2 == 0 && next'[d] <= e && n == f(d, e);
      assert next[d] <= e;
    }
  }

  lemma SetSizeMono<T>(a: set<T>, b: set<T>)
    requires a <= b
    ensures |a| <= |b|
  {
    assert b == a + (b - a);
    assert |a + (b - a)| == |a| + |b - a|;
  }

  lemma FutureAfterAdd(f: Naming, s: State, c: nat)
    requires Distinct(f) && c < |s.next| && s.next[c] % 2 == 0
    ensures var name := f(c, s.next[c]);
            && Future(f, State(s.members + {name}, s.next[c := s.next[c] + 1])) <= Future(f, s) - {name}
            && (name in s.members ==> name in Future(f, s))
  {
    var name, next' := f(c, s.next[c]), s.next[c := s.next[c] + 1];
    ToComeAfter(f, s.next, c, name);
    forall x | x in Future(f, State(s.members + {name}, next')) ensures x in Future(f, s) - {name} {
      ToComeAfter(f, s.next, c, x);
    }
  }

  lemma FutureAfterTake(f: Naming, s: State, c: nat, members: set<Name>)
    requires Distinct(f) && c < |s.next| && members <= s.members
    ensures Future(f, State(members, s.next[c := s.next[c] + 1])) <= Future(f, s)
  {
    var next' := s.next[c := s.next[c] + 1];
    forall x | x in Future(f, State(members, next')) ensures x in Future(f, s) {
      ToComeAfter(f, s.next, c, x);
    }
  }

  lemma SizeWithout<T>(a: set<T>, b: set<T>, x: T)
    requires a <= b - {x}
    ensures |a| <= |b| - (if x in b then 1 else 0)
  {
    SetSizeMono(a, b - {x});
    TakeSize(b, x);
  }

  lemma AddEnough(f: Naming, s: State, c: nat)
    requires Distinct(f) && Enough(f, s) && c < |s.next| && s.next[c] % 2 == 0
    ensures Enough(f, State(s.members + {f(c, s.next[c])}, s.next[c := s.next[c] + 1]))
  {
    var name := f(c, s.next[c]);
    FutureAfterAdd(f, s, c);
    SizeWithout(Future(f, State(s.members + {name}, s.next[c := s.next[c] + 1])), Future(f, s), name);
    OddStep(s.next, c);
    AddSize(s.members, name);
  }

  lemma TakeEnough(f: Naming, s: State, c: nat, members: set<Name>)
    requires Distinct(f) && Enough(f, s) && c < |s.next| && s.next[c] % 2 == 1
    requires members <= s.members && |members| + 1 >= |s.members|
    ensures Enough(f, State(members, s.next[c := s.next[c] + 1]))
  {
    FutureAfterTake(f, s, c, members);
    SetSizeMono(Future(f, State(members, s.next[c := s.next[c] + 1])), Future(f, s));
    OddStep(s.next, c);
  }

  lemma SpopStepEnough(f: Naming, s: State, e: Event)
    requires Distinct(f)
    requires Enough(f, s)
    ensures Enough(f, SpopStep(f, s, e))
  {
    if e.conn < |s.next| {
      if s.next[e.conn] % 2 == 0 {
        AddEnough(f, s, e.conn);
      } else if s.members == {} || e.pick in s.members {
        TakeEnough(f, s, e.conn, s.members - {e.pick});
        assert s.members == {} ==> s.members - {e.pick} == s.members;
      }
    }
  }

  lemma {:induction false} SpopRunEnough(f: Naming, start: set<Name>, connections: nat, schedule: seq<Event>)
    requires Distinct(f)
    ensures Enough(f, SpopRun(f, Start(start, connections), schedule))
    ensures |SpopRun(f, Start(start, connections), schedule).next| == connections
  {
    if schedule == [] {
      OddOfStart(connections);
      SetSizeMono(Future(f, Start(start, connections)), start);
    } else {
      var n := |schedule| - 1;
      SpopRunEnough(f, start, connections, schedule[..n]);
      SpopStepEnough(f, SpopRun(f, Start(start, connections), schedule[..n]), schedule[n]);
    }
  }

  /** SPOP never meets an empty set, whatever set the drive starts from: an add that changes
      nothing has its name in the set, and that name pays for the pop. */
  lemma SpopNeverNil(f: Naming, start: set<Name>, connections: nat, schedule: seq<Event>, c: nat)
    requires Distinct(f)
    requires c < connections
    ensures var s := SpopRun(f, Start(start, connections), schedule);
            |s.next| == connections && (s.next[c] % 2 == 1 ==> s.members != {})
  {
    SpopRunEnough(f, start, connections, schedule);
    var s := SpopRun(f, Start(start, connections), schedule);
    if s.next[c] % 2 == 1 {
      OwedMeansMembers(f, s, c);
    }
  }

  // ---- the population law of a sustained probe ----

  ghost predicate SremHeld(f: Naming, start: set<Name>, connections: nat) {
    forall schedule: seq<nat> ::
      |SremRun(f, Start(start, connections), schedule).members| ==
      |start| + Odd(SremRun(f, Start(start, connections), schedule).next)
  }

  ghost predicate SpopHeld(f: Naming, start: set<Name>, connections: nat) {
    forall schedule: seq<Event> ::
      |SpopRun(f, Start(start, connections), schedule).members| ==
      |start| + Odd(SpopRun(f, Start(start, connections), schedule).next)
  }

  /** Every re-add is a new member, and the population holds on all schedules, exactly when the
      starting set carries none of the names to be added: for either way of taking a member away.
      A drive from the preload does; a measured drive whose warmup left refill names behind, with
      the sequence numbers restarted, does not. */
  lemma PopulationHeldIff(f: Naming, start: set<Name>, connections: nat)
    requires Distinct(f)
    ensures SremHeld(f, start, connections) <==> Clean(f, start, connections)
    ensures SpopHeld(f, start, connections) <==> Clean(f, start, connections)
  {
    if Clean(f, start, connections) {
      CleanHolds(f, start, connections);
    } else {
      DirtyBreaks(f, start, connections);
    }
  }

  lemma CleanHolds(f: Naming, start: set<Name>, connections: nat)
    requires Distinct(f) && Clean(f, start, connections)
    ensures SremHeld(f, start, connections) && SpopHeld(f, start, connections)
  {
    forall schedule: seq<nat>
      ensures |SremRun(f, Start(start, connections), schedule).members| ==
              |start| + Odd(SremRun(f, Start(start, connections), schedule).next)
    {
      SremPopulation(f, start, connections, schedule);
    }
    forall schedule: seq<Event>
      ensures |SpopRun(f, Start(start, connections), schedule).members| ==
              |start| + Odd(SpopRun(f, Start(start, connections), schedule).next)
    {
      SpopPopulation(f, start, connections, schedule);
    }
  }

  lemma DirtyBreaks(f: Naming, start: set<Name>, connections: nat)
    requires Distinct(f) && !Clean(f, start, connections)
    ensures !SremHeld(f, start, connections) && !SpopHeld(f, start, connections)
  {
    var c: nat, k: nat :| c < connections && k % 2 == 0 && f(c, k) in start;
    var s := Start(start, connections);
    OddOfStart(connections);
    var removing := SremBreaks(f, s, c, k);
    assert |SremRun(f, s, removing).members| != |start| + Odd(SremRun(f, s, removing).next);
    var popping := SpopBreaks(f, s, c, k);
    assert |SpopRun(f, s, popping).members| != |start| + Odd(SpopRun(f, s, popping).next);
  }

  lemma AddPopulation(f: Naming, s: State, c: nat)
    requires Distinct(f) && Future(f, s) == {} && c < |s.next| && s.next[c] % 2 == 0
    ensures var t := State(s.members + {f(c, s.next[c])}, s.next[c := s.next[c] + 1]);
            Future(f, t) == {} && |t.members| - Odd(t.next) == |s.members| - Odd(s.next)
  {
    FutureAfterAdd(f, s, c);
    assert f(c, s.next[c]) !in Future(f, s);
    AddBalance(s.members, s.next, c, f(c, s.next[c]));
  }

  lemma TakePopulation(f: Naming, s: State, c: nat, pick: Name)
    requires Distinct(f) && Future(f, s) == {} && c < |s.next| && s.next[c] % 2 == 1 && pick in s.members
    ensures var t := State(s.members - {pick}, s.next[c := s.next[c] + 1]);
            Future(f, t) == {} && |t.members| - Odd(t.next) == |s.members| - Odd(s.next)
  {
    FutureAfterTake(f, s, c, s.members - {pick});
    TakeBalance(s.members, s.next, c, pick);
  }

  lemma SpopStepPopulation(f: Naming, s: State, e: Event)
    requires Distinct(f)
    requires Enough(f, s) && Future(f, s) == {}
    ensures Future(f, SpopStep(f, s, e)) == {}
    ensures |SpopStep(f, s, e).members| - Odd(SpopStep(f, s, e).next) == |s.members| - Odd(s.next)
  {
    if e.conn < |s.next| {
      if s.next[e.conn] % 2 == 0 {
        AddPopulation(f, s, e.conn);
      } else if e.pick in s.members {
        TakePopulation(f, s, e.conn, e.pick);
      } else {
        OwedMeansMembers(f, s, e.conn);
        assert SpopStep(f, s, e) == s;
      }
    }
  }

  lemma OwedMeansMembers(f: Naming, s: State, c: nat)
    requires Enough(f, s) && c < |s.next| && s.next[c] % 2 == 1
    ensures s.members != {}
  {
    OddUpdate(s.next, c, 0);
  }

  lemma {:induction false} SpopPopulation(f: Naming, start: set<Name>, connections: nat, schedule: seq<Event>)
    requires Distinct(f)
    requires Clean(f, start, connections)
    ensures var s := SpopRun(f, Start(start, connections), schedule);
            && |s.members| == |start| + Odd(s.next)
            && Future(f, s) == {}
  {
    if schedule == [] {
      OddOfStart(connections);
    } else {
      var n := |schedule| - 1;
      SpopPopulation(f, start, connections, schedule[..n]);
      SpopRunEnough(f, start, connections, schedule[..n]);
      SpopStepPopulation(f, SpopRun(f, Start(start, connections), schedule[..n]), schedule[n]);
    }
  }

  // ---- a schedule on which the law fails ----

  /** An add of a name that is already there leaves the set short. */
  lemma AddInVain(f: Naming, s: State, c: nat)
    requires c < |s.next| && s.next[c] % 2 == 0 && f(c, s.next[c]) in s.members && Odd(s.next) == 0
    ensures var t := State(s.members + {f(c, s.next[c])}, s.next[c := s.next[c] + 1]);
            |t.members| < |s.members| + Odd(t.next)
  {
    OddStep(s.next, c);
    assert s.members + {f(c, s.next[c])} == s.members;
  }

  /** A new name added and taken away again: two sequence numbers on, with the same members. */
  lemma PairBack(f: Naming, s: State, c: nat)
    requires c < |s.next| && s.next[c] % 2 == 0 && f(c, s.next[c]) !in s.members && Odd(s.next) == 0
    ensures var name, k := f(c, s.next[c]), s.next[c];
            && SremStep(f, SremStep(f, s, c), c) == State(s.members, s.next[c := k + 2])
            && SpopStep(f, SpopStep(f, s, Event(c, name)), Event(c, name)) == State(s.members, s.next[c := k + 2])
            && Odd(s.next[c := k + 2]) == 0
  {
    var name, k := f(c, s.next[c]), s.next[c];
    OddUpdate(s.next, c, k + 2);
    assert s.members + {name} - {name} == s.members;
    assert s.next[c := k + 1][c := k + 2] == s.next[c := k + 2];
  }

  /** Connection c adds and takes away its own names until it comes to one the set already holds. */
  lemma {:induction false} SremBreaks(f: Naming, s: State, c: nat, k: nat) returns (schedule: seq<nat>)
    requires c < |s.next| && s.next[c] <= k && s.next[c] % 2 == 0 && k % 2 == 0
    requires f(c, k) in s.members && Odd(s.next) == 0
    ensures var t := SremRun(f, s, schedule); |t.members| < |s.members| + Odd(t.next)
    decreases k - s.next[c]
  {
    if f(c, s.next[c]) in s.members {
      schedule := [c];
      SremRunOne(f, s, c);
      AddInVain(f, s, c);
    } else {
      PairBack(f, s, c);
      var later := State(s.members, s.next[c := s.next[c] + 2]);
      var rest := SremBreaks(f, later, c, k);
      schedule := [c, c] + rest;
      SremRunTwo(f, s, c, c, rest);
    }
  }

  lemma {:induction false} SpopBreaks(f: Naming, s: State, c: nat, k: nat) returns (schedule: seq<Event>)
    requires c < |s.next| && s.next[c] <= k && s.next[c] % 2 == 0 && k % 2 == 0
    requires f(c, k) in s.members && Odd(s.next) == 0
    ensures var t := SpopRun(f, s, schedule); |t.members| < |s.members| + Odd(t.next)
    decreases k - s.next[c]
  {
    var e := Event(c, f(c, s.next[c]));
    if e.pick in s.members {
      schedule := [e];
      RunOne(f, s, e);
      AddInVain(f, s, c);
    } else {
      PairBack(f, s, c);
      var later := State(s.members, s.next[c := s.next[c] + 2]);
      var rest := SpopBreaks(f, later, c, k);
      schedule := [e, e] + rest;
      RunTwo(f, s, e, e, rest);
    }
  }

  lemma SremRunOne(f: Naming, s: State, c: nat)
    ensures SremRun(f, s, [c]) == SremStep(f, s, c)
  {
    assert [c][..0] == [];
  }

  lemma {:induction false} SremRunTwo(f: Naming, s: State, a: nat, b: nat, rest: seq<nat>)
    ensures SremRun(f, s, [a, b] + rest) == SremRun(f, SremStep(f, SremStep(f, s, a), b), rest)
    decreases |rest|
  {
    var all := [a, b] + rest;
    if rest == [] {
      assert all[..1] == [a];
      SremRunOne(f, s, a);
    } else {
      assert all[..|all| - 1] == [a, b] + rest[..|rest| - 1];
      SremRunTwo(f, s, a, b, rest[..|rest| - 1]);
    }
  }

  lemma RunOne(f: Naming, s: State, e: Event)
    ensures SpopRun(f, s, [e]) == SpopStep(f, s, e)
  {
    assert [e][..0] == [];
  }

  lemma {:induction false} RunTwo(f: Naming, s: State, a: Event, b: Event, rest: seq<Event>)
    ensures SpopRun(f, s, [a, b] + rest) == SpopRun(f, SpopStep(f, SpopStep(f, s, a), b), rest)
    decreases |rest|
  {
    var all := [a, b] + rest;
    if rest == [] {
      assert all[..1] == [a];
      RunOne(f, s, a);
    } else {
      assert all[..|all| - 1] == [a, b] + rest[..|rest| - 1];
      RunTwo(f, s, a, b, rest[..|rest| - 1]);
    }
  }
}
