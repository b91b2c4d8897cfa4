/** Subviews of a matrix: where an element of one is in the matrix it is cut from. */
module Views {
  datatype View = Root | Sub(of: View, dr: nat, dc: nat)

  /** The matrix element that (i, j) of the view names. */
  function At(v: View, i: nat, j: nat): (nat, nat) {
    match v
    case Root => (i, j)
    case Sub(of, dr, dc) => At(of, i + dr, j + dc)
  }

  /** A view shifts by what its chain of offsets adds up to. */
  lemma {:induction false} AtShifts(v: View, i: nat, j: nat)
    ensures At(v, i, j) == (At(v, 0, 0).0 + i, At(v, 0, 0).1 + j)
  {
    match v
    case Root =>
    case Sub(of, dr, dc) =>
      AtShifts(of, i + dr, j + dc);
      AtShifts(of, dr, dc);
  }
}
