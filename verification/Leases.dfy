/** Lease variables: whatever a program does with them, every slot goes back exactly once. */
module Leases {

  type Var = nat

  /** A `PooledConnection`: whether it still has its pool and its client, its flag, and which
      acquire it stems from. */
  datatype Lease = Lease(pool: bool, client: bool, valid: bool, token: nat)
  {
    predicate Live()
    {
      pool && client
    }

    function MovedFrom(): Lease
    {
      this.(pool := false, client := false, valid := false)
    }
  }

  const EMPTY := Lease(false, false, false, 0)

  /** A call of `returnConnection`: for which acquire, and whether the connection is kept. */
  datatype Return = Return(token: nat, kept: bool)

  function Drop(l: Lease): (Lease, seq<Return>)
  {
    if l.Live() then (l.MovedFrom(), [Return(l.token, l.valid)]) else (l.(client := false, valid := false), [])
  }

  function DropClient(l: Lease): (Lease, seq<Return>)
  {
    (l.MovedFrom(), if l.pool then [Return(l.token, false)] else [])
  }

  datatype Op =
    | Declare(v: Var)                 // an empty lease, as by default construction
    | Acquire(v: Var)                 // a successful acquire initialises v
    | MoveConstruct(v: Var, from: Var)
    | MoveAssign(v: Var, from: Var)
    | MarkInvalid(v: Var)
    | Release(v: Var)
    | ReleaseClient(v: Var)
    | Destroy(v: Var)

  /** `marked` are the slots whose lease was marked invalid, `taken` those whose connection was
      handed out of the pool. */
  datatype State = State(vars: map<Var, Lease>, next: nat, marked: set<nat>, taken: set<nat>, log: seq<Return>)

  const START := State(map[], 0, {}, {}, [])

  predicate Enabled(s: State, op: Op)
  {
    match op
    case Declare(v) => v !in s.vars
    case Acquire(v) => v !in s.vars
    case MoveConstruct(v, from) => v !in s.vars && from in s.vars
    case MoveAssign(v, from) => v in s.vars && from in s.vars
    case _ => op.v in s.vars
  }

  function Next(s: State, op: Op): State
    requires Enabled(s, op)
  {
    match op
    case Declare(v) =>
      s.(vars := s.vars[v := EMPTY])
    case Acquire(v) =>
      s.(vars := s.vars[v := Lease(true, true, true, s.next)], next := s.next + 1)
    case MoveConstruct(v, from) =>
      s.(vars := s.vars[v := s.vars[from]][from := s.vars[from].MovedFrom()])
    case MoveAssign(v, from) =>
      if v == from then s
      else
        var (_, back) := Drop(s.vars[v]);
        s.(vars := s.vars[v := s.vars[from]][from := s.vars[from].MovedFrom()], log := s.log + back)
    case MarkInvalid(v) =>
      s.(vars := s.vars[v := s.vars[v].(valid := false)],
        marked := if s.vars[v].Live() then s.marked + {s.vars[v].token} else s.marked)
    case Release(v) =>
      var (l, back) := Drop(s.vars[v]);
      s.(vars := s.vars[v := l], log := s.log + back)
    case ReleaseClient(v) =>
      var (l, back) := DropClient(s.vars[v]);
      s.(vars := s.vars[v := l], log := s.log + back,
        taken := if s.vars[v].Live() then s.taken + {s.vars[v].token} else s.taken)
    case Destroy(v) =>
      var (_, back) := Drop(s.vars[v]);
      s.(vars := s.vars - {v}, log := s.log + back)
  }

  ghost predicate Held(s: State, token: nat)
  {
    exists v :: v in s.vars && s.vars[v].Live() && s.vars[v].token == token
  }

  ghost predicate Logged(s: State, token: nat)
  {
    exists i :: 0 <= i < |s.log| && s.log[i].token == token
  }

  /** No two variables hold the same slot, a held slot has not gone back, and exactly the leases
      that were marked are invalid. A lease has both its pool and its client, or neither. */
  ghost predicate Owned(s: State)
  {
    && (forall v :: v in s.vars ==> s.vars[v].pool == s.vars[v].client)
    && (forall v, u :: v in s.vars && u in s.vars && v != u && s.vars[v].Live() && s.vars[u].Live() ==>
          s.vars[v].token != s.vars[u].token)
    && (forall v :: v in s.vars && s.vars[v].Live() ==> s.vars[v].token < s.next && !Logged(s, s.vars[v].token))
    && (forall v :: v in s.vars && s.vars[v].Live() ==> (s.vars[v].valid <==> s.vars[v].token !in s.marked))
    && (forall v :: v in s.vars && s.vars[v].Live() ==> s.vars[v].token !in s.taken)
  }

  /** No slot went back twice, and a connection was kept exactly if it was neither marked nor
      taken out. */
  ghost predicate LogOk(s: State)
  {
    && (forall i, j :: 0 <= i < j < |s.log| ==> s.log[i].token != s.log[j].token)
    && (forall i :: 0 <= i < |s.log| ==> s.log[i].token < s.next)
    && (forall i :: 0 <= i < |s.log| ==>
          (s.log[i].kept <==> s.log[i].token !in s.marked && s.log[i].token !in s.taken))
    && (forall t :: t in s.marked || t in s.taken ==> t < s.next)
  }

  /** None is lost. */
  ghost predicate Covered(s: State)
  {
    forall t: nat :: t < s.next ==> Held(s, t) || Logged(s, t)
  }

  ghost predicate Inv(s: State)
  {
    Owned(s) && LogOk(s) && Covered(s)
  }

  predicate IsRun(s: State, ops: seq<Op>)
    decreases |ops|
  {
    ops == [] || (Enabled(s, ops[0]) && IsRun(Next(s, ops[0]), ops[1..]))
  }

  function Run(s: State, ops: seq<Op>): State
    requires IsRun(s, ops)
    decreases |ops|
  {
    if ops == [] then s else Run(Next(s, ops[0]), ops[1..])
  }

  lemma DeclareKeeps(s: State, v: Var)
    requires Inv(s) && v !in s.vars
    ensures Inv(Next(s, Declare(v)))
  {
    var s' := Next(s, Declare(v));
    SameLog(s, s');
    forall t: nat | t < s'.next
      ensures Held(s', t) || Logged(s', t)
    {
      if Held(s, t) {
        var u :| u in s.vars && s.vars[u].Live() && s.vars[u].token == t;
        assert s'.vars[u] == s.vars[u];
      }
    }
  }

  lemma AcquireKeeps(s: State, v: Var)
    requires Inv(s) && v !in s.vars
    ensures Inv(Next(s, Acquire(v)))
  {
    var s' := Next(s, Acquire(v));
    forall t: nat | t < s'.next
      ensures Held(s', t) || Logged(s', t)
    {
      if t == s.next {
        assert s'.vars[v].token == t;
      } else if Held(s, t) {
        var u :| u in s.vars && s.vars[u].Live() && s.vars[u].token == t;
        assert s'.vars[u] == s.vars[u];
      } else {
        assert Logged(s, t);
      }
    }
  }

  /** Dropping what `v` holds: its slot moves from the variables to the log. */
  lemma DropKeeps(s: State, v: Var, s': State, takes: bool)
    requires Inv(s) && v in s.vars
    requires s'.next == s.next && s'.marked == s.marked
    requires s'.taken == if takes && s.vars[v].Live() then s.taken + {s.vars[v].token} else s.taken
    requires forall u :: u in s'.vars ==> if u == v then !s'.vars[u].Live() && s'.vars[u].pool == s'.vars[u].client
                                          else u in s.vars && s'.vars[u] == s.vars[u]
    requires forall u :: u in s.vars && u != v ==> u in s'.vars
    requires s'.log == s.log + if s.vars[v].Live() then [Return(s.vars[v].token, s.vars[v].valid && !takes)] else []
    ensures Inv(s')
  {
    forall t: nat
      ensures Logged(s', t) <==> Logged(s, t) || (s.vars[v].Live() && s.vars[v].token == t)
    {
      if Logged(s, t) {
        var i :| 0 <= i < |s.log| && s.log[i].token == t;
        assert s'.log[i].token == t;
      } else if s.vars[v].Live() && s.vars[v].token == t {
        assert s'.log[|s.log|].token == t;
      }
    }
    forall t: nat | t < s'.next
      ensures Held(s', t) || Logged(s', t)
    {
      if !Logged(s', t) {
        assert Held(s, t);
        var u :| u in s.vars && s.vars[u].Live() && s.vars[u].token == t;
        assert u != v && s'.vars[u] == s.vars[u];
      }
    }
    forall i, j | 0 <= i < j < |s'.log|
      ensures s'.log[i].token != s'.log[j].token
    {
      if j == |s.log| {
        assert s'.log[i] == s.log[i];
      }
    }
  }

  function Moved(s: State, v: Var, from: Var): State
    requires from in s.vars
  {
    s.(vars := s.vars[v := s.vars[from]][from := s.vars[from].MovedFrom()])
  }

  lemma MoveCovers(s: State, v: Var, from: Var)
    requires Covered(s) && from in s.vars && v != from && (v in s.vars ==> !s.vars[v].Live())
    ensures Covered(Moved(s, v, from))
  {
    var s' := Moved(s, v, from);
    forall t: nat | t < s'.next
      ensures Held(s', t) || Logged(s', t)
    {
      if Held(s, t) {
        var u :| u in s.vars && s.vars[u].Live() && s.vars[u].token == t;
        var u' := if u == from then v else u;
        assert s'.vars[u'] == s.vars[u];
      } else {
        assert Logged(s, t);
        var i :| 0 <= i < |s.log| && s.log[i].token == t;
        assert s'.log[i].token == t;
      }
    }
  }

  /** Moving between two variables of which the target holds nothing. */
  lemma MoveKeeps(s: State, v: Var, from: Var)
    requires Inv(s) && from in s.vars && v != from && (v in s.vars ==> !s.vars[v].Live())
    ensures Inv(Moved(s, v, from))
  {
    MoveCovers(s, v, from);
    SameLog(s, Moved(s, v, from));
  }

  lemma SameLog(s: State, s': State)
    requires s'.log == s.log
    ensures forall t: nat :: Logged(s', t) <==> Logged(s, t)
  {
    forall t: nat
      ensures Logged(s', t) <==> Logged(s, t)
    {
    }
  }

  lemma MarkCovers(s: State, v: Var)
    requires Covered(s) && v in s.vars
    ensures Covered(Next(s, MarkInvalid(v)))
  {
    var s' := Next(s, MarkInvalid(v));
    SameLog(s, s');
    forall t: nat | t < s'.next
      ensures Held(s', t) || Logged(s', t)
    {
      if Held(s, t) {
        var u :| u in s.vars && s.vars[u].Live() && s.vars[u].token == t;
        assert s'.vars[u].Live() && s'.vars[u].token == t;
      }
    }
  }

  lemma MarkLog(s: State, v: Var)
    requires Inv(s) && v in s.vars
    ensures LogOk(Next(s, MarkInvalid(v)))
  {
    if s.vars[v].Live() {
      assert !Logged(s, s.vars[v].token);
      assert forall i :: 0 <= i < |s.log| ==> s.log[i].token != s.vars[v].token;
    }
  }

  lemma MarkKeeps(s: State, v: Var)
    requires Inv(s) && v in s.vars
    ensures Inv(Next(s, MarkInvalid(v)))
  {
    MarkCovers(s, v);
    MarkLog(s, v);
    SameLog(s, Next(s, MarkInvalid(v)));
  }

  lemma MoveAssignKeeps(s: State, v: Var, from: Var)
    requires Inv(s) && v in s.vars && from in s.vars && v != from
    ensures Inv(Next(s, MoveAssign(v, from)))
  {
    var (l, back) := Drop(s.vars[v]);
    var m := s.(vars := s.vars[v := l], log := s.log + back);
    DropKeeps(s, v, m, false);
    MoveKeeps(m, v, from);
    assert Next(s, MoveAssign(v, from)).vars == Moved(m, v, from).vars;
  }

  lemma ReleaseKeeps(s: State, op: Op)
    requires Inv(s) && Enabled(s, op) && (op.Release? || op.ReleaseClient? || op.Destroy?)
    ensures Inv(Next(s, op))
  {
    DropKeeps(s, op.v, Next(s, op), op.ReleaseClient?);
  }

  lemma StepKeeps(s: State, op: Op)
    requires Inv(s) && Enabled(s, op)
    ensures Inv(Next(s, op))
  {
    match op
    case Declare(v) => DeclareKeeps(s, v);
    case Acquire(v) => AcquireKeeps(s, v);
    case MoveConstruct(v, from) => MoveKeeps(s, v, from);
    case MoveAssign(v, from) =>
      if v != from {
        MoveAssignKeeps(s, v, from);
      }
    case MarkInvalid(v) => MarkKeeps(s, v);
    case Release(_) => ReleaseKeeps(s, op);
    case ReleaseClient(_) => ReleaseKeeps(s, op);
    case Destroy(_) => ReleaseKeeps(s, op);
  }

  lemma {:induction false} RunKeeps(s: State, ops: seq<Op>)
    requires Inv(s) && IsRun(s, ops)
    ensures Inv(Run(s, ops))
    decreases |ops|
  {
    if ops != [] {
      StepKeeps(s, ops[0]);
      RunKeeps(Next(s, ops[0]), ops[1..]);
    }
  }

  /** Whatever is done with lease variables, moves and self-assignment included: no slot goes
      back twice or while it is still held, and once all variables are gone each has gone back.
      A connection is kept exactly if its lease was neither marked invalid nor its client taken. */
  lemma EverySlotGoesBackOnce(ops: seq<Op>)
    requires IsRun(START, ops)
    ensures var s := Run(START, ops);
      && (forall i, j :: 0 <= i < j < |s.log| ==> s.log[i].token != s.log[j].token)
      && (forall t: nat :: t < s.next ==> (Held(s, t) <==> !Logged(s, t)))
      && (s.vars == map[] ==> forall t: nat :: t < s.next ==> Logged(s, t))
      && (forall i :: 0 <= i < |s.log| ==>
            (s.log[i].kept <==> s.log[i].token !in s.marked && s.log[i].token !in s.taken))
  {
    RunKeeps(START, ops);
  }
}
