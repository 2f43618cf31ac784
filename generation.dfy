/**
 * The random hash generators and the generate-and-check loops around them.
 *
 * `generate_hash_sha1` and `generate_hash_512` hash fresh bytes from
 * `os.urandom`; the model sees only the values they produce, as a stream
 * `hashes` read from position `drawn` on. Each `while True` loop of the
 * store draws values until one is not taken in the collection it checks.
 */
module Generation {

  /** Some value of the stream at or after `from` is not taken: the loop started
      at `from` exits. */
  ghost predicate EventuallyFresh(hashes: nat -> string, from: nat, taken: set<string>)
  {
    exists k: nat :: from <= k && hashes(k) !in taken
  }

  /** `i` is where a loop started at `from` stops: the first position whose value
      is not taken; every value drawn before it was taken. */
  ghost predicate FirstFreshAt(hashes: nat -> string, from: nat, taken: set<string>, i: nat)
  {
    && from <= i
    && hashes(i) !in taken
    && forall j: nat :: from <= j < i ==> hashes(j) in taken
  }

  /** The loops at lines 141-144, 212-215 and 221-224: draw values from
      position `from` on until one is not in `taken`, and return its position. */
  method FirstFresh(hashes: nat -> string, from: nat, taken: set<string>) returns (i: nat)
    requires EventuallyFresh(hashes, from, taken)
    ensures hashes(i) !in taken
    ensures FirstFreshAt(hashes, from, taken, i)
  {
    ghost var bound: nat :| from <= bound && hashes(bound) !in taken;
    i := from;
    while hashes(i) in taken
      invariant from <= i <= bound
      invariant forall j: nat :: from <= j < i ==> hashes(j) in taken
      decreases bound - i
    {
      i := i + 1;
    }
  }

  /** The position at which a loop stops is determined by where it starts. */
  lemma FirstFreshUnique(hashes: nat -> string, from: nat, taken: set<string>, i: nat, i': nat)
    requires FirstFreshAt(hashes, from, taken, i)
    requires FirstFreshAt(hashes, from, taken, i')
    ensures i == i'
  {
    assert i < i' ==> hashes(i) in taken;
    assert i' < i ==> hashes(i') in taken;
  }
}
