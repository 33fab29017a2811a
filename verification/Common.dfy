/** Vocabulary shared by all components. */
module Common {

  datatype Option<+T> = None | Some(value: T)

  type Attrs = map<string, string>

  function At(m: Attrs, k: string): Option<string> {
    if k in m then Some(m[k]) else None
  }

  lemma AtDetermines(m: Attrs, n: Attrs)
    requires forall k :: At(m, k) == At(n, k)
    ensures m == n
  {
    forall k ensures k in m <==> k in n {
      assert At(m, k) == At(n, k);
    }
    forall k | k in m ensures m[k] == n[k] {
      assert At(m, k) == At(n, k);
    }
  }

  /** Go's conversion to int32. */
  function Int32(n: int): int {
    (n + 0x8000_0000) % 0x1_0000_0000 - 0x8000_0000
  }

  /** Counts below two to the thirty-first survive it. */
  lemma Int32Exact(n: nat)
    requires n < 0x8000_0000
    ensures Int32(n) == n
  {}
}
