/** Vocabulary shared by every module of the model. */
module Basics {

  datatype Option<+T> = None | Some(value: T)

  datatype Result<+T, +E> = Ok(value: T) | Err(error: E)

  newtype Byte = b: int | 0 <= b < 256

  type Bytes = seq<Byte>

  /** The lower-case hexadecimal text of a SHA-256 digest. */
  datatype Hash = Hash(hex: string)

  /** The serial key of a row of `worker_nodes`. */
  datatype WorkerId = WorkerId(id: int)

  /** What the digest of a chunk is: SHA-256 itself is a parameter of the model. */
  type Digest = Bytes -> Hash

  /** White space in the C locale. */
  predicate IsSpace(c: char) {
    c == ' ' || ('\t' <= c <= '\r')
  }

  function Min(a: int, b: int): int {
    if a <= b then a else b
  }

  /** Positions in strictly increasing order, all below n. */
  ghost predicate Ascending(idx: seq<nat>, n: nat) {
    && (forall j, k :: 0 <= j < k < |idx| ==> idx[j] < idx[k])
    && (forall k :: 0 <= k < |idx| ==> idx[k] < n)
  }

  lemma {:induction false} AscendOnce(idx: seq<nat>, n: nat)
    requires Ascending(idx, n)
    ensures Ascending(idx, n + 1) && Ascending(idx + [n], n + 1)
    ensures forall i :: i in idx + [n] <==> i in idx || i == n
    ensures forall i :: i in idx ==> i < n
  {
  }

  /** Lets a proof name an element of a non-empty set. */
  lemma Element<T>(s: set<T>) returns (x: T)
    requires s != {}
    ensures x in s
  {
    if forall x :: x !in s {
      assert false;
    }
    x :| x in s;
  }

  /** A set has subsets of every size up to its own. */
  lemma {:induction false} SubsetOfSize<T>(s: set<T>, k: nat) returns (r: set<T>)
    requires k <= |s|
    ensures r <= s && |r| == k
  {
    if k == 0 {
      r := {};
    } else {
      var x := Element(s);
      r := SubsetOfSize(s - {x}, k - 1);
      r := r + {x};
    }
  }

  lemma {:induction false} ProductMonotone(a: nat, b: nat, c: nat)
    requires a <= b
    ensures a * c <= b * c
  {
    assert b * c == a * c + (b - a) * c;
  }
}
