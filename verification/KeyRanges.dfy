/**
 Keys of the sharded store, the iterators between them and half-open key ranges.
 Keys are the 64-bit `SHTKey`s at which the repository instantiates its generic key trait.
 */
module KeyRanges {

  type Key = k: int | 0 <= k < 0x1_0000_0000_0000_0000

  const ZERO_KEY: Key := 0

  /** A position in the key order; `End` lies above every key. */
  datatype KeyIterator = At(k: Key) | End {

    predicate Lt(other: KeyIterator) {
      At? && (other.End? || k < other.k)
    }

    /** Is this iterator strictly above the key? */
    predicate Above(key: Key) {
      End? || key < k
    }
  }

  /** Is `ki` in [lo, hi)? */
  predicate Between(lo: KeyIterator, ki: KeyIterator, hi: KeyIterator) {
    !ki.Lt(lo) && ki.Lt(hi)
  }

  datatype KeyRange = KeyRange(lo: KeyIterator, hi: KeyIterator) {

    predicate Contains(k: Key) {
      Between(lo, At(k), hi)
    }

    predicate IsEmpty() {
      !lo.Lt(hi)
    }
  }

  /** `IsEmpty` compares two iterators, yet decides a question about every key. */
  lemma EmptyRangeHasNoKeys(kr: KeyRange)
    ensures kr.IsEmpty() <==> forall k: Key :: !kr.Contains(k)
  {
    if !kr.IsEmpty() {
      assert kr.Contains(kr.lo.k);
    }
  }

}
