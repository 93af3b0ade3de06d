/** Row-major addressing without non-linear arithmetic. */
module Rows {

  /** The number of cells in `h` rows of width `w`, and so the offset of row `h`. */
  function Area(w: nat, h: nat): nat {
    if h == 0 then 0 else Area(w, h - 1) + w
  }

  /** The offset of column `i` in row `j`. */
  function Index(w: nat, j: nat, i: nat): nat { Area(w, j) + i }

  lemma {:induction false} AreaIsProduct(w: nat, h: nat)
    ensures Area(w, h) == h * w
  {
    if h > 0 {
      AreaIsProduct(w, h - 1);
      assert (h - 1) * w + w == h * w;
    }
  }

  lemma {:induction false} AreaGrows(w: nat, h: nat, w': nat, h': nat)
    requires w <= w' && h <= h'
    ensures Area(w, h) <= Area(w', h')
    decreases h'
  {
    if h' > 0 {
      AreaGrows(w, if h == 0 then 0 else h - 1, w', h' - 1);
    }
  }

  /** Row `j` lies before the end of `h` rows. */
  lemma RowWithin(w: nat, h: nat, j: nat)
    requires j < h
    ensures Area(w, j) + w <= Area(w, h)
  {
    AreaGrows(w, j + 1, w, h);
  }

  lemma {:induction false} DoubleArea(w: nat, h: nat)
    ensures Area(2 * w, 2 * h) == 4 * Area(w, h)
  {
    if h > 0 {
      DoubleArea(w, h - 1);
      assert Area(2 * w, 2 * h - 1) == Area(2 * w, 2 * h - 2) + 2 * w;
    }
  }

  /** Different cells have different places. */
  lemma {:induction false} IndexApart(w: nat, i: nat, j: nat, i': nat, j': nat)
    requires i < w && i' < w && Index(w, j, i) == Index(w, j', i')
    ensures i == i' && j == j'
  {
    if j < j' { RowWithin(w, j', j); }
    if j' < j { RowWithin(w, j, j'); }
  }
}
