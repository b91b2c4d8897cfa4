/** Kernel operands that are only read. A load must be in bounds. */
module Operands {
  datatype Tensor = Tensor(rows: nat, cols: nat, at: (int, int) -> real)

  function Load(t: Tensor, i: int, j: int): real
    requires 0 <= i < t.rows && 0 <= j < t.cols
  {
    t.at(i, j)
  }

  /** A matmul operand: a tensor, possibly used transposed. */
  datatype Operand = Operand(t: Tensor, transposed: bool)
  {
    function Rows(): nat { if transposed then t.cols else t.rows }
    function Cols(): nat { if transposed then t.rows else t.cols }
    function At(i: int, j: int): real { if transposed then t.at(j, i) else t.at(i, j) }

    function LoadAt(i: nat, j: nat): (value: real)
      requires i < Rows() && j < Cols()
      ensures value == At(i, j)
    {
      if transposed then Load(t, j, i) else Load(t, i, j)
    }
  }
}
