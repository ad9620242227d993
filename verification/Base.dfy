/** Types and sequence facts shared by every component of the receive pipeline. */
module Base {

  type Byte = x: int | 0 <= x < 256

  datatype Option<+T> = None | Some(value: T)

  lemma Assoc<T>(a: seq<T>, b: seq<T>, c: seq<T>)
    ensures (a + b) + c == a + (b + c)
  {
  }

  lemma TakeDrop<T>(s: seq<T>, i: nat, j: nat)
    requires i <= j <= |s|
    ensures s[i..][..j - i] == s[i..j]
    ensures s[i..][j - i..] == s[j..]
    ensures s[i..] == s[i..j] + s[j..]
  {
  }

  /** Reads the three parts of a concatenation back off a suffix. */
  lemma PartsOfSuffix<T>(s: seq<T>, at: nat, a: seq<T>, b: seq<T>, c: seq<T>)
    requires at <= |s| && s[at..] == a + b + c
    ensures at + |a| + |b| + |c| == |s|
    ensures s[at..at + |a|] == a
    ensures s[at + |a|..at + |a| + |b|] == b
    ensures s[at + |a| + |b|..] == c
  {
    var t := s[at..];
    assert |t| == |a| + |b| + |c|;
    TakeDrop(s, at, at + |a|);
    TakeDrop(s, at, at + |a| + |b|);
    assert t[..|a|] == a;
    assert t[|a| + |b|..] == c;
    assert s[at + |a|..at + |a| + |b|] == t[|a|..|a| + |b|] == b;
  }

  lemma ProductMono(a: int, b: int, n: int)
    ensures a <= b && 0 <= n ==> a * n <= b * n && n * a <= n * b
  {
    if a <= b && 0 <= n {
      assert b * n == a * n + (b - a) * n;
    }
  }

  // ---- two-dimensional indices --------------------------------------------------------------

  /** Cell `col` of row `row`, with `width` cells to a row. */
  function Cell(row: int, width: int, col: int): int {
    row * width + col
  }

  lemma CellBounds(row: nat, rows: nat, width: nat, col: nat)
    requires row < rows && col < width
    ensures 0 <= Cell(row, width, col) < rows * width
  {
    assert row * width + width == (row + 1) * width;
    ProductMono(row + 1, rows, width);
  }

  lemma CellOrder(row: nat, other: nat, width: nat, col: nat, col2: nat)
    requires row < other && col < width && col2 < width
    ensures Cell(row, width, col) < Cell(other, width, col2)
  {
    assert row * width + width == (row + 1) * width;
    ProductMono(row + 1, other, width);
  }

  /** Different cells have different indices. */
  lemma CellInjective(row: nat, col: nat, row2: nat, col2: nat, width: nat)
    requires col < width && col2 < width && (row != row2 || col != col2)
    ensures Cell(row, width, col) != Cell(row2, width, col2)
  {
    if row < row2 {
      CellOrder(row, row2, width, col, col2);
    } else if row2 < row {
      CellOrder(row2, row, width, col2, col);
    }
  }

  /** Every index is a cell. */
  lemma CellOf(k: nat, rows: nat, width: nat) returns (row: nat, col: nat)
    requires k < rows * width
    ensures row < rows && col < width && Cell(row, width, col) == k
  {
    assert width == 0 ==> rows * width == 0;
    row, col := k / width, k % width;
    assert k == row * width + col;
    ProductMono(rows, row, width);
  }

  // ---- logs read step by step ---------------------------------------------------------------

  /** What a monitor that starts at `w` makes of a log. */
  function Fold<W, E>(w: W, step: (W, E) -> W, log: seq<E>): W {
    if log == [] then w else step(Fold(w, step, log[..|log| - 1]), log[|log| - 1])
  }

  lemma FoldStep<W, E>(w: W, step: (W, E) -> W, log: seq<E>, e: E)
    ensures Fold(w, step, log + [e]) == step(Fold(w, step, log), e)
  {
    assert (log + [e])[..|log|] == log;
  }

  lemma FoldAt<W, E>(w: W, step: (W, E) -> W, log: seq<E>, k: nat)
    requires k < |log|
    ensures Fold(w, step, log[..k + 1]) == step(Fold(w, step, log[..k]), log[k])
  {
    hide Fold;
    FoldStep(w, step, log[..k], log[k]);
    assert log[..k] + [log[k]] == log[..k + 1];
  }

  /** What no step can restore was never lost. */
  lemma {:induction false} FoldPrefix<W(!new), E(!new)>(w: W, step: (W, E) -> W, good: W -> bool, log: seq<E>, k: nat)
    requires k <= |log| && good(Fold(w, step, log)) && forall v, e :: good(step(v, e)) ==> good(v)
    ensures good(Fold(w, step, log[..k]))
  {
    if k == |log| {
      assert log[..k] == log;
    } else {
      FoldPrefix(w, step, good, log[..|log| - 1], k);
      assert log[..|log| - 1][..k] == log[..k];
    }
  }
}
