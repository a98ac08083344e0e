/**
 * danogl.util.MutableVector2: a vector whose `self*` operations overwrite the
 * receiver. Every `Vector2` operation either returns its receiver unchanged or
 * builds its result through `createVec`; a mutable receiver's `createVec`
 * writes the coordinates into itself when the `mutateSelf` flag is raised and
 * allocates a fresh immutable vector otherwise.
 */
module MutableVectors {
  import opened Vectors

  datatype MutVec = MutVec(coords: Vec, mutateSelf: bool)

  /** What `createVec` hands back: the receiver itself, or a new immutable vector. */
  datatype Created = Receiver | NewVector(value: Vec)

  /** The vector operations that `self*` methods route through `mutableOperator`. */
  datatype Op =
    | MultOp(factor: real)
    | MultXOp(factor: real)
    | MultYOp(factor: real)
    | AddOp(other: Vec)
    | SubtractOp(other: Vec)
    | ZeroAlongNormalOp(normal: Vec, normalMag: real)
    | FlipOp(normal: Vec, normalMag: real)
    | RotateToNearestAxisOp(mag: real)

  /** How the Java body of an operation ends: `return this`, or `return createVec(x, y)`. */
  datatype Outcome = ReturnThis | CreateVec(value: Vec)

  /** An operation is applicable when the magnitudes it is handed are the true ones. */
  predicate Applicable(op: Op, v: Vec) {
    match op
    case ZeroAlongNormalOp(n, m) => IsMagnitude(n, m) && !IsZero(n)
    case FlipOp(n, m) => IsMagnitude(n, m)
    case RotateToNearestAxisOp(m) => IsMagnitude(v, m)
    case _ => true
  }

  /** The branch each operation's body takes on receiver `v`. */
  function OutcomeOf(op: Op, v: Vec): Outcome
    requires Applicable(op, v)
  {
    match op
    case MultOp(f) => if f == 1.0 then ReturnThis else CreateVec(Vec(f * v.x, f * v.y))
    case MultXOp(f) => if f == 1.0 then ReturnThis else CreateVec(Vec(f * v.x, v.y))
    case MultYOp(f) => if f == 1.0 then ReturnThis else CreateVec(Vec(v.x, f * v.y))
    case AddOp(o) => if Equals(o, ZERO) then ReturnThis else CreateVec(Vec(v.x + o.x, v.y + o.y))
    case SubtractOp(o) => if Equals(o, ZERO) then ReturnThis else CreateVec(Vec(v.x - o.x, v.y - o.y))
    case ZeroAlongNormalOp(n, m) =>
      CreateVec(ZeroedAlongNormal(v, n, m))
    case FlipOp(n, m) => FlipBranch(v, n, m)
    case RotateToNearestAxisOp(m) =>
      CreateVec(RotatedToNearestAxis(v, m))
  }

  /** `flipped` builds a new vector only when the projection on the normal is negative. */
  function FlipBranch(v: Vec, n: Vec, m: real): Outcome {
    if m != 0.0 && Dot(v, n) / m < 0.0 then CreateVec(Reflected(v, n, m)) else ReturnThis
  }

  /** The immutable `Vector2` operation that `op` names. */
  function Immutable(op: Op, v: Vec): Vec
    requires Applicable(op, v)
  {
    match op
    case MultOp(f) => Mult(v, f)
    case MultXOp(f) => MultX(v, f)
    case MultYOp(f) => MultY(v, f)
    case AddOp(o) => Add(v, o)
    case SubtractOp(o) => Subtract(v, o)
    case ZeroAlongNormalOp(n, m) => ZeroedAlongNormal(v, n, m)
    case FlipOp(n, m) => Flipped(v, n, m)
    case RotateToNearestAxisOp(m) => RotatedToNearestAxis(v, m)
  }

  /** `createVec` on a mutable receiver: overwrite itself when mutating, allocate otherwise. */
  function CreateVecOn(m: MutVec, x: real, y: real): (res: (MutVec, Created))
    ensures m.mutateSelf ==> res == (MutVec(Vec(x, y), true), Receiver)
    ensures !m.mutateSelf ==> res == (m, NewVector(Vec(x, y)))
  {
    if !m.mutateSelf then (m, NewVector(Vec(x, y)))
    else (m.(coords := Vec(x, y)), Receiver)
  }

  /** Running an operation's body on a mutable receiver with whatever flag it has. */
  function Run(m: MutVec, op: Op): (MutVec, Created)
    requires Applicable(op, m.coords)
  {
    match OutcomeOf(op, m.coords)
    case ReturnThis => (m, Receiver)
    case CreateVec(r) => CreateVecOn(m, r.x, r.y)
  }

  /** The value a `Created` result denotes, given the receiver's state afterwards. */
  function Denote(m: MutVec, c: Created): Vec {
    match c
    case Receiver => m.coords
    case NewVector(v) => v
  }

  /**
   * `self*` through `mutableOperator`: raise the flag, run the operation, lower
   * the flag, return the receiver.
   */
  function SelfOp(m: MutVec, op: Op): (r: MutVec)
    requires Applicable(op, m.coords)
    ensures r.coords == Immutable(op, m.coords)
    ensures !r.mutateSelf
  {
    OutcomeMatchesImmutable(op, m.coords);
    var (after, _) := Run(m.(mutateSelf := true), op);
    after.(mutateSelf := false)
  }

  /**
   * A non-self operation on a mutable receiver whose flag is down: the receiver
   * is untouched and the value returned is the immutable operation's result.
   */
  function PlainOp(m: MutVec, op: Op): (res: (MutVec, Vec))
    requires Applicable(op, m.coords) && !m.mutateSelf
    ensures res.0 == m
    ensures res.1 == Immutable(op, m.coords)
  {
    OutcomeMatchesImmutable(op, m.coords);
    var (after, c) := Run(m, op);
    (after, Denote(after, c))
  }

  /** Each operation's `createVec` coordinates (or its receiver) are exactly the immutable operation's value. */
  lemma OutcomeMatchesImmutable(op: Op, v: Vec)
    requires Applicable(op, v)
    ensures OutcomeOf(op, v).ReturnThis? ==> Immutable(op, v) == v
    ensures OutcomeOf(op, v).CreateVec? ==> Immutable(op, v) == OutcomeOf(op, v).value
  {
    match op
    case FlipOp(n, m) => FlipOutcome(v, n, m);
    case ZeroAlongNormalOp(n, m) =>
    case RotateToNearestAxisOp(m) =>
    case MultOp(f) => assert f == 1.0 ==> Mult(v, f) == v;
    case MultXOp(f) => assert f == 1.0 ==> MultX(v, f) == v;
    case MultYOp(f) => assert f == 1.0 ==> MultY(v, f) == v;
    case AddOp(o) =>
    case SubtractOp(o) =>
  }

  /** `flipped` returns its receiver exactly when the immutable reflection leaves it unchanged, and otherwise builds the reflection. */
  lemma FlipOutcome(v: Vec, n: Vec, m: real)
    requires IsMagnitude(n, m)
    ensures FlipBranch(v, n, m).ReturnThis? ==> Flipped(v, n, m) == v
    ensures FlipBranch(v, n, m).CreateVec? ==> Flipped(v, n, m) == FlipBranch(v, n, m).value
  {
    if m != 0.0 && Dot(v, n) / m < 0.0 {
      FlipCreates(v, n, m);
    } else {
      FlipReturnsThis(v, n, m);
    }
  }

  lemma FlipCreates(v: Vec, n: Vec, m: real)
    requires IsMagnitude(n, m) && m != 0.0 && Dot(v, n) / m < 0.0
    ensures FlipBranch(v, n, m) == CreateVec(Flipped(v, n, m))
  {
  }

  lemma FlipReturnsThis(v: Vec, n: Vec, m: real)
    requires IsMagnitude(n, m) && !(m != 0.0 && Dot(v, n) / m < 0.0)
    ensures FlipBranch(v, n, m) == ReturnThis && Flipped(v, n, m) == v
  {
    NotOpposing(v, n, m);
    FlipKeeps(v, n, m);
  }

  lemma NotOpposing(v: Vec, n: Vec, m: real)
    requires IsMagnitude(n, m) && !(m != 0.0 && Dot(v, n) / m < 0.0)
    ensures Dot(v, n) >= 0.0
  {
    if m != 0.0 {
      DivSign(Dot(v, n), m);
    } else {
      ZeroDot(v, n);
    }
  }

  lemma FlipKeeps(v: Vec, n: Vec, m: real)
    requires IsMagnitude(n, m) && Dot(v, n) >= 0.0
    ensures Flipped(v, n, m) == v
  {
  }

  /** `selfNormalize`: a zero receiver is set to ZERO, any other is multiplied in place by 1/magnitude. */
  function SelfNormalize(m: MutVec, mag: real): (r: MutVec)
    requires IsMagnitude(m.coords, mag) && !m.mutateSelf
    ensures r.coords == Normalized(m.coords, mag)
    ensures !r.mutateSelf
  {
    if IsZero(m.coords) then m.(coords := ZERO)
    else SelfOp(m, MultOp(1.0 / mag))
  }

  function SetX(m: MutVec, x: real): (r: MutVec)
    ensures r.coords.x == x && r.coords.y == m.coords.y && r.mutateSelf == m.mutateSelf
  {
    m.(coords := Vec(x, m.coords.y))
  }

  function SetY(m: MutVec, y: real): (r: MutVec)
    ensures r.coords.y == y && r.coords.x == m.coords.x && r.mutateSelf == m.mutateSelf
  {
    m.(coords := Vec(m.coords.x, y))
  }

  function SetXY(m: MutVec, x: real, y: real): (r: MutVec)
    ensures r.coords == Vec(x, y) && r.mutateSelf == m.mutateSelf
  {
    SetY(SetX(m, x), y)
  }

  /** `getImmutableCopy`: a new vector with the receiver's coordinates. */
  function ImmutableCopy(m: MutVec): (r: Created)
    ensures r == NewVector(m.coords)
  {
    NewVector(Vec(m.coords.x, m.coords.y))
  }

  /** A fresh `MutableVector2` has its flag down, and stays that way across any chain of self operations. */
  lemma {:induction false} SelfOpsKeepFlagDown(m: MutVec, ops: seq<Op>)
    requires !m.mutateSelf
    requires ApplicableChain(m.coords, ops)
    ensures !SelfOps(m, ops).mutateSelf
    ensures SelfOps(m, ops).coords == ImmutableChain(m.coords, ops)
    decreases |ops|
  {
    if ops != [] {
      SelfOpsKeepFlagDown(SelfOp(m, ops[0]), ops[1..]);
    }
  }

  predicate ApplicableChain(v: Vec, ops: seq<Op>)
    decreases |ops|
  {
    ops == [] || (Applicable(ops[0], v) && ApplicableChain(Immutable(ops[0], v), ops[1..]))
  }

  function ImmutableChain(v: Vec, ops: seq<Op>): Vec
    requires ApplicableChain(v, ops)
    decreases |ops|
  {
    if ops == [] then v else ImmutableChain(Immutable(ops[0], v), ops[1..])
  }

  function SelfOps(m: MutVec, ops: seq<Op>): MutVec
    requires ApplicableChain(m.coords, ops)
    decreases |ops|
  {
    if ops == [] then m
    else
      var next := SelfOp(m, ops[0]);
      SelfOps(next, ops[1..])
  }
}
