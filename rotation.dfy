/** The term rotation of `randomlyRotateArray`: the list of search terms is
    split at an index and the suffix is placed in front of the prefix. The
    index, which the source draws with `Math.random`, is a parameter here. */
module TermRotation {

  /** `randomlyRotateArray(arr)` when the random draw selects split index `k`. */
  function Rotate<T>(arr: seq<T>, k: nat): (r: seq<T>)
    requires arr == [] || k < |arr|
    ensures arr == [] ==> r == arr
    ensures |r| == |arr|
    ensures multiset(r) == multiset(arr)
    ensures forall i :: 0 <= i < |r| ==> r[i] == arr[(i + k) % |arr|]
  {
    if arr == [] then arr
    else
      assert arr == arr[..k] + arr[k..];
      var r := arr[k..] + arr[..k];
      assert forall i :: 0 <= i < |r| ==> r[i] == arr[(i + k) % |arr|] by {
        forall i | 0 <= i < |r| ensures r[i] == arr[(i + k) % |arr|] {
          ShiftIndex(|arr|, k, i);
        }
      }
      r
  }

  /** The index, in a sequence of length `n`, that lands at position `i` after
      a rotation by `k`, written without `%`. */
  function Source(n: nat, k: nat, i: nat): (j: nat)
    requires k < n && i < n
    ensures j < n
  {
    if i + k < n then i + k else i + k - n
  }

  lemma ShiftIndex(n: nat, k: nat, i: nat)
    requires k < n && i < n
    ensures (i + k) % n == Source(n, k, i)
  {
  }

  /** Position `i` of a rotation by `k`, without the modulus. */
  lemma RotateAt<T>(arr: seq<T>, k: nat, i: nat)
    requires k < |arr| && i < |arr|
    ensures Rotate(arr, k)[i] == arr[Source(|arr|, k, i)]
  {
    ShiftIndex(|arr|, k, i);
  }

  /** The split index that undoes a rotation by `k`. */
  function Inverse(n: nat, k: nat): (j: nat)
    requires n == 0 || k < n
    ensures n == 0 || j < n
    ensures n > 0 ==> Source(n, k, j) == 0
  {
    if n == 0 || k == 0 then 0 else n - k
  }

  /** Rotating back by the inverse split index restores the original order:
      the rotation loses no information about the term list. */
  lemma {:induction false} RotateInverse<T>(arr: seq<T>, k: nat)
    requires arr == [] || k < |arr|
    ensures Rotate(Rotate(arr, k), Inverse(|arr|, k)) == arr
  {
    if arr != [] {
      var n := |arr|;
      var r := Rotate(arr, k);
      var j := Inverse(n, k);
      var back := Rotate(r, j);
      forall i | 0 <= i < n ensures back[i] == arr[i] {
        RotateAt(r, j, i);
        RotateAt(arr, k, Source(n, j, i));
      }
    }
  }

  /** The position after `i` in a cyclic order of length `n`. */
  function Next(n: nat, i: nat): (j: nat)
    requires i < n
    ensures j < n
  {
    if i + 1 < n then i + 1 else 0
  }

  /** Rotation keeps the order cyclically: the term that follows `arr[j]`
      (wrapping around at the end) still follows it in the rotated list. */
  lemma {:induction false} RotatePreservesSuccessor<T>(arr: seq<T>, k: nat, p: nat)
    requires k < |arr| && p < |arr|
    ensures var n := |arr|;
            Rotate(arr, k)[p] == arr[Source(n, k, p)]
            && Rotate(arr, k)[Next(n, p)] == arr[Next(n, Source(n, k, p))]
  {
    RotateAt(arr, k, p);
    RotateAt(arr, k, Next(|arr|, p));
  }

  /** The split index that moves the term at index `j` to position `p`. */
  function SplitFor(n: nat, j: nat, p: nat): (k: nat)
    requires j < n && p < n
    ensures k < n
  {
    if p <= j then j - p else j + n - p
  }

  /** Fairness of the rotation: for every term `arr[j]` and every position
      `p`, exactly one split index puts that term at that position (when the
      terms are distinct, as the members of a set are). Drawing the index
      uniformly therefore gives each term each position with equal chance. */
  lemma {:induction false} ExactlyOneSplitPlacesTerm<T>(arr: seq<T>, j: nat, p: nat)
    requires j < |arr| && p < |arr|
    requires forall a, b :: 0 <= a < b < |arr| ==> arr[a] != arr[b]
    ensures Rotate(arr, SplitFor(|arr|, j, p))[p] == arr[j]
    ensures forall k :: 0 <= k < |arr| && Rotate(arr, k)[p] == arr[j] ==> k == SplitFor(|arr|, j, p)
  {
    var n := |arr|;
    RotateAt(arr, SplitFor(n, j, p), p);
    forall k | 0 <= k < n && Rotate(arr, k)[p] == arr[j] ensures k == SplitFor(n, j, p) {
      RotateAt(arr, k, p);
    }
  }
}
