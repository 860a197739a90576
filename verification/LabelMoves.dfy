/** The declared moves of the tilted kernel, and the descent they make. */
module LabelMoves {
  import opened IntegerLaw
  import opened IntegerDescent
  import IntegerRun

  type State = seq<int>

  /** Wait on a gap of at most one, else place the ceiling at `c`. */
  function ApplyLabel(x: State, c: nat, o: nat): (y: State)
    requires c < |x| && o < |x| && c != o
    ensures |y| == |x|
  {
    if Abs(x[c] - x[o]) <= 1 then x else
      var (high, low) := NearestAgreement(x[c], x[o], true);
      x[c := high][o := low]
  }

  /** The literal carrier function: a gap of one may swap. */
  function ApplyLabelLiteral(x: State, c: nat, o: nat): (y: State)
    requires c < |x| && o < |x| && c != o
    ensures |y| == |x|
  {
    var (high, low) := NearestAgreement(x[c], x[o], true);
    x[c := high][o := low]
  }

  function ClosedFormDv(gap: nat): int
  {
    if gap <= 1 then 0 else -2 * (gap / 2) * ((gap + 1) / 2)
  }

  /** A literal move changes `V` by the closed form of its gap. */
  lemma LiteralDescent(x: State, c: nat, o: nat)
    requires c < |x| && o < |x| && c != o
    ensures V(ApplyLabelLiteral(x, c, o)) - V(x) == ClosedFormDv(Abs(x[c] - x[o]))
  {
    hide V, NearestAgreement, UnitTransferDrop, ClosedFormDv, Square, SquareChange, Abs;
    var (high, low) := NearestAgreement(x[c], x[o], true);
    IntegerRun.PairChangesV(x, c, o, high, low);
    ChangeOfSquares(x[c], x[o], high, low);
    SquareChangeIsLedger(x[c], x[o], true);
    ClosedFormIsLedger(Abs(x[c] - x[o]));
  }

  lemma ChangeOfSquares(u: int, v: int, high: int, low: int)
    requires (high, low) == NearestAgreement(u, v, true)
    ensures SquareChange(u, v, true) == Square(high) + Square(low) - Square(u) - Square(v)
  {
  }

  /** The closed form is the sum of the unit-transfer decrements. */
  lemma ClosedFormIsLedger(gap: nat)
    ensures ClosedFormDv(gap) == -UnitTransferDrop(gap)
  {
    hide UnitTransferDrop;
    UnitTransferClosedForm(gap);
    var h, k := gap / 2, (gap + 1) / 2;
    assert -2 * h * k == -(2 * (h * k)) && 2 * h * k == 2 * (h * k);
  }

  /** A declared move changes `V` by the closed form of its gap. */
  lemma DeclaredDescent(x: State, c: nat, o: nat)
    requires c < |x| && o < |x| && c != o
    ensures V(ApplyLabel(x, c, o)) - V(x) == ClosedFormDv(Abs(x[c] - x[o]))
    ensures ApplyLabel(x, c, o) != x ==> V(ApplyLabel(x, c, o)) < V(x)
    ensures Abs(x[c] - x[o]) >= 2 ==> ApplyLabel(x, c, o) != x
  {
    hide V, NearestAgreement;
    LiteralDescent(x, c, o);
    var gap := Abs(x[c] - x[o]);
    if gap >= 2 {
      Falls(gap);
    }
  }

  lemma Falls(gap: nat)
    requires gap >= 2
    ensures ClosedFormDv(gap) < 0
  {
    assert (gap / 2) * ((gap + 1) / 2) >= 1;
  }

  /** Where the literal and the declared move differ, the literal one swaps a gap of one, at no change of `V`. */
  lemma LiteralSwaps(x: State, c: nat, o: nat)
    requires c < |x| && o < |x| && c != o
    requires ApplyLabelLiteral(x, c, o) != ApplyLabel(x, c, o)
    ensures x[o] == x[c] + 1 && ApplyLabelLiteral(x, c, o) == x[c := x[o]][o := x[c]]
    ensures V(ApplyLabelLiteral(x, c, o)) == V(x)
  {
    hide V;
    LiteralDescent(x, c, o);
    assert Abs(x[c] - x[o]) <= 1;
  }
}
