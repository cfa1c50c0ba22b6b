/**
 The cryptographic primitives, reduced to the laws the fabric relies on.

 A `Crypto` is any suite of pure functions that satisfies those laws; every theorem
 of this project holds for all of them. Randomness (secrets, nonces) is an explicit input.
 */
module Crypto {
  import opened ByteStrings
  import opened Wrappers

  const KEY_SIZE := 32
  const NONCE_SIZE := 12
  const TAG_SIZE := 16

  type Key = k: Bytes | |k| == KEY_SIZE witness Zeros(KEY_SIZE)
  type Nonce = n: Bytes | |n| == NONCE_SIZE witness Zeros(NONCE_SIZE)

  datatype Suite = Suite(
    publicOf: Key -> Key,
    agree: (Key, Key) -> Key,
    derive: (Key, Bytes) -> Key,
    seal: (Key, Nonce, Bytes) -> Bytes,
    open: (Key, Nonce, Bytes) -> Option<Bytes>)

  /**
   Section 6.1 of RFC 7748: agreement commutes. Section 2.8 of RFC 8439: opening undoes
   sealing, and a sealed message, like anything that opens, is 16 bytes longer than its plaintext.
   Nothing is said about opening under a different key.
   */
  ghost predicate Lawful(cs: Suite) {
    && (forall a: Key, b: Key :: cs.agree(a, cs.publicOf(b)) == cs.agree(b, cs.publicOf(a)))
    && (forall k: Key, n: Nonce, m: Bytes :: cs.open(k, n, cs.seal(k, n, m)) == Some(m))
    && (forall k: Key, n: Nonce, m: Bytes :: |cs.seal(k, n, m)| == |m| + TAG_SIZE)
    && (forall k: Key, n: Nonce, c: Bytes ::
          cs.open(k, n, c).Some? ==> |c| == |cs.open(k, n, c).value| + TAG_SIZE)
  }

  type Crypto = cs: Suite | Lawful(cs) witness (ToySuiteIsLawful(); ToySuite())

  function AddBytes(x: int, y: int): byte {
    (x + y) % 256
  }

  function Blend(a: Key, b: Key): Key {
    seq(KEY_SIZE, i requires 0 <= i < KEY_SIZE => AddBytes(a[i], b[i]))
  }

  function ToyOpen(k: Key, c: Bytes): Option<Bytes> {
    if |c| >= TAG_SIZE && c[|c| - TAG_SIZE..] == k[..TAG_SIZE]
    then Some(c[..|c| - TAG_SIZE])
    else None
  }

  /** A suite with no security whatever, which shows that the laws can be met together. */
  function ToySuite(): Suite {
    Suite(
      (s: Key) => s,
      (s: Key, p: Key) => Blend(s, p),
      (s: Key, context: Bytes) => s,
      (k: Key, n: Nonce, m: Bytes) => m + k[..TAG_SIZE],
      (k: Key, n: Nonce, c: Bytes) => ToyOpen(k, c))
  }

  lemma ToySuiteIsLawful()
    ensures Lawful(ToySuite())
  {
    var cs := ToySuite();
    forall a: Key, b: Key ensures cs.agree(a, cs.publicOf(b)) == cs.agree(b, cs.publicOf(a)) {
      assert Blend(a, b) == Blend(b, a);
    }
    forall k: Key, n: Nonce, m: Bytes ensures cs.open(k, n, cs.seal(k, n, m)) == Some(m) {
      var c := m + k[..TAG_SIZE];
      assert c[|c| - TAG_SIZE..] == k[..TAG_SIZE];
      assert c[..|c| - TAG_SIZE] == m;
    }
  }
}
