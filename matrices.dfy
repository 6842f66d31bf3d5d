/** Real 4x4 matrices, the `matrix(4,4)` values the collector adds up.
    Only the operations the collector and the folding step use are modelled:
    entrywise sum (`+=`), scaling by a weight (`Area*bf`) and adding to one entry. */
module Matrices {

  type Matrix = seq<seq<real>>

  predicate Is4x4(m: Matrix)
  {
    |m| == 4 && forall r :: 0 <= r < 4 ==> |m[r]| == 4
  }

  /** The matrix after `Fill(0)`. */
  function Zero(): (z: Matrix)
    ensures Is4x4(z)
    ensures forall r, c :: 0 <= r < 4 && 0 <= c < 4 ==> z[r][c] == 0.0
  {
    seq(4, r => seq(4, c => 0.0))
  }

  /** `a + b`, entry by entry. */
  function Add(a: Matrix, b: Matrix): (s: Matrix)
    requires Is4x4(a) && Is4x4(b)
    ensures Is4x4(s)
    ensures forall r, c :: 0 <= r < 4 && 0 <= c < 4 ==> s[r][c] == a[r][c] + b[r][c]
  {
    seq(4, r requires 0 <= r < 4 => seq(4, c requires 0 <= c < 4 => a[r][c] + b[r][c]))
  }

  /** `k * m`, entry by entry. */
  function Scale(k: real, m: Matrix): (s: Matrix)
    requires Is4x4(m)
    ensures Is4x4(s)
    ensures forall r, c :: 0 <= r < 4 && 0 <= c < 4 ==> s[r][c] == k * m[r][c]
  {
    seq(4, r requires 0 <= r < 4 => seq(4, c requires 0 <= c < 4 => k * m[r][c]))
  }

  /** `m(row, col) += d`: one entry changes, all others keep their value. */
  function AddAt(m: Matrix, row: nat, col: nat, d: real): (s: Matrix)
    requires Is4x4(m) && row < 4 && col < 4
    ensures Is4x4(s)
    ensures forall r, c :: 0 <= r < 4 && 0 <= c < 4 ==>
              s[r][c] == m[r][c] + (if r == row && c == col then d else 0.0)
  {
    m[row := m[row][col := m[row][col] + d]]
  }
}
