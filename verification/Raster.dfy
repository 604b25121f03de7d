/** Rows and columns of a plane stored line after line, `w` elements to a line. */
module Raster {

  lemma InLine(w: nat, row: nat, col: nat)
    requires col < w
    ensures row * w + col < (row + 1) * w && (row * w + col) / w == row && (row * w + col) % w == col
  {
    var k := row * w + col;
    assert (k / w) * w + k % w == k;
    SameLine(w, row, col, k / w, k % w);
  }

  lemma SameLine(w: nat, r: int, c: nat, q: int, d: nat)
    requires c < w && d < w && r * w + c == q * w + d
    ensures r == q && c == d
  {
    if r > q { LinesApart(w, r, q); } else if r < q { LinesApart(w, q, r); }
  }

  lemma LinesApart(w: nat, r: int, q: int)
    requires r > q
    ensures r * w >= q * w + w
  {
    assert (r - q - 1) * w >= 0;
    assert r * w == (r - q - 1) * w + q * w + w;
  }

  lemma RowCells(w: nat, row: nat, col: nat, n: nat, k: nat)
    requires col + n <= w && 0 < w
    ensures row * w + col <= k < row * w + col + n <==> k / w == row && col <= k % w < col + n
  {
    assert (k / w) * w + k % w == k;
    if row * w + col <= k < row * w + col + n {
      SameLine(w, row, k - row * w, k / w, k % w);
    }
  }

  lemma NoRow(k: nat, w: nat)
    requires w > 0
    ensures k / w >= 0
  {
  }
}
