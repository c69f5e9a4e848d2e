/** Positions in the key matrix, and items in tables of rows. */
module Grid {

  datatype KeyPos = KeyPos(row: nat, col: nat)

  /** Rows of `width` items come one behind the other. */
  lemma RowsAscend(i: nat, k: nat, width: nat)
    requires i < k
    ensures i * width + width <= k * width
  {
    assert k * width == i * width + width + (k - i - 1) * width;
  }

  /** Position of an item in a table of `height` rows of `width` items. */
  lemma TableRange(i: nat, j: nat, height: nat, width: nat)
    requires i < height && j < width
    ensures i * width + j < height * width
  {
    RowsAscend(i, height, width);
  }

  /** Different items have different positions. */
  lemma TableUnique(i: nat, j: nat, i': nat, j': nat, width: nat)
    requires j < width && j' < width && i * width + j == i' * width + j'
    ensures i == i' && j == j'
  {
    if i < i' {
      RowsAscend(i, i', width);
    } else if i' < i {
      RowsAscend(i', i, width);
    }
  }
}
