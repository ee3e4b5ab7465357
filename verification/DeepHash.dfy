/** The deep hash of nested lists of binaries (src/ar_deep_hash.erl:4-22). */
module DeepHash {
  import opened Bytes

  datatype Nested = Blob(bytes: Bytes) | List(items: seq<Nested>)

  /** SHA-384 is a parameter: results hold for every function with 48-byte values. */
  type Digest48 = d: Bytes | |d| == 48 witness seq(48, _ => 0 as Byte)

  type Hash48 = Bytes -> Digest48

  function Decimal(n: nat): Bytes {
    (if n < 10 then [] else Decimal(n / 10)) + [(48 + n % 10) as Byte]
  }

  function BlobTag(n: nat): Bytes { Ascii("blob") + Decimal(n) }

  function ListTag(n: nat): Bytes { Ascii("list") + Decimal(n) }

  function DeepHash(h: Hash48, x: Nested): Digest48
    decreases x, 1, 0
  {
    match x
    case Blob(b) => h(h(BlobTag(|b|)) + h(b))
    case List(items) => HashList(h, x, 0, h(ListTag(|items|)))
  }

  /** Folds the items from the k-th on into `acc`. */
  function HashList(h: Hash48, x: Nested, k: nat, acc: Digest48): Digest48
    requires x.List? && k <= |x.items|
    decreases x, 0, |x.items| - k
  {
    if k == |x.items| then acc else HashList(h, x, k + 1, h(acc + DeepHash(h, x.items[k])))
  }

  //////////////////////////////////////////////////////////////////////////////
  // The hashed strings
  //////////////////////////////////////////////////////////////////////////////

  /** The string that is hashed last for a tag and the hashes of items. */
  function LastString(h: Hash48, tag: Bytes, xs: seq<Digest48>): Bytes
    decreases xs
  {
    if xs == [] then tag else h(LastString(h, tag, xs[..|xs| - 1])) + xs[|xs| - 1]
  }

  /** All strings that are hashed for them. */
  function ListStrings(h: Hash48, tag: Bytes, xs: seq<Digest48>): (strings: set<Bytes>)
    ensures LastString(h, tag, xs) in strings
    decreases xs
  {
    (if xs == [] then {} else ListStrings(h, tag, xs[..|xs| - 1])) + {LastString(h, tag, xs)}
  }

  function ItemHashes(h: Hash48, x: Nested): seq<Digest48>
    requires x.List?
  {
    seq(|x.items|, (k: nat) requires k < |x.items| => DeepHash(h, x.items[k]))
  }

  /** The hash of a list is the hash of its last string. */
  lemma {:induction false} HashListIsLast(h: Hash48, x: Nested, k: nat)
    requires x.List? && k <= |x.items|
    ensures
      var (tag, xs) := (ListTag(|x.items|), ItemHashes(h, x));
      HashList(h, x, k, h(LastString(h, tag, xs[..k]))) == h(LastString(h, tag, xs))
    decreases |x.items| - k
  {
    var (tag, xs) := (ListTag(|x.items|), ItemHashes(h, x));
    if k == |x.items| {
      assert xs[..k] == xs;
    } else {
      assert xs[..k + 1][..k] == xs[..k] && xs[..k + 1][k] == DeepHash(h, x.items[k]);
      HashListIsLast(h, x, k + 1);
    }
  }

  /** All strings that are hashed for `x`. */
  function Hashed(h: Hash48, x: Nested): set<Bytes>
    decreases x, 1, 0
  {
    match x
    case Blob(b) => {BlobTag(|b|), b, h(BlobTag(|b|)) + h(b)}
    case List(items) => ListStrings(h, ListTag(|items|), ItemHashes(h, x)) + HashedFirst(h, x, |items|)
  }

  /** All strings that are hashed for the first n items. */
  function HashedFirst(h: Hash48, x: Nested, n: nat): set<Bytes>
    requires x.List? && n <= |x.items|
    decreases x, 0, n
  {
    if n == 0 then {} else HashedFirst(h, x, n - 1) + Hashed(h, x.items[n - 1])
  }

  lemma {:induction false} ItemStrings(h: Hash48, x: Nested, n: nat, k: nat)
    requires x.List? && k < n <= |x.items|
    ensures Hashed(h, x.items[k]) <= HashedFirst(h, x, n)
    decreases n
  {
    if k < n - 1 {
      ItemStrings(h, x, n - 1, k);
    }
  }

  ghost predicate CollisionFree(h: Hash48, strings: set<Bytes>) {
    forall s, t | s in strings && t in strings && h(s) == h(t) :: s == t
  }

  /** Every tag is shorter than two hashes. */
  ghost predicate ShortTags(x: Nested)
    decreases x
  {
    match x
    case Blob(b) => |BlobTag(|b|)| < 96
    case List(items) => |ListTag(|items|)| < 96 && forall k | 0 <= k < |items| :: ShortTags(items[k])
  }

  lemma TagsDiffer(m: nat, n: nat)
    ensures BlobTag(m) != ListTag(n)
  {
    assert BlobTag(m)[0] == 98 && ListTag(n)[0] == 108;
  }

  //////////////////////////////////////////////////////////////////////////////
  // Injectivity
  //////////////////////////////////////////////////////////////////////////////

  lemma PairsSplit(a: Digest48, b: Digest48, c: Digest48, d: Digest48)
    requires a + b == c + d
    ensures a == c && b == d
  {
    SplitEqual(a, b, c, d);
  }

  /** Equal last strings come from equally many equal hashes. */
  lemma {:induction false} SameHashes(h: Hash48, tag: Bytes, xs: seq<Digest48>, tag': Bytes, ys: seq<Digest48>)
    requires |tag| < 96 && |tag'| < 96 && LastString(h, tag, xs) == LastString(h, tag', ys)
    requires CollisionFree(h, ListStrings(h, tag, xs) + ListStrings(h, tag', ys))
    ensures xs == ys && tag == tag'
    decreases xs
  {
    if xs != [] && ys != [] {
      var (m, n) := (|xs| - 1, |ys| - 1);
      PairsSplit(h(LastString(h, tag, xs[..m])), xs[m], h(LastString(h, tag', ys[..n])), ys[n]);
      SameHashes(h, tag, xs[..m], tag', ys[..n]);
      assert xs == xs[..m] + [xs[m]] && ys == ys[..n] + [ys[n]];
    }
  }

  /** The pair that is hashed for a blob is not the last string of a list. */
  lemma BlobIsNoList(h: Hash48, b: Bytes, n: nat, ys: seq<Digest48>)
    requires |BlobTag(|b|)| < 96 && |ListTag(n)| < 96
    requires CollisionFree(h, {BlobTag(|b|), b, h(BlobTag(|b|)) + h(b)} + ListStrings(h, ListTag(n), ys))
    ensures h(h(BlobTag(|b|)) + h(b)) != h(LastString(h, ListTag(n), ys))
  {
    var (s, t) := (h(BlobTag(|b|)) + h(b), LastString(h, ListTag(n), ys));
    TagsDiffer(|b|, n);
    if ys != [] && s == t {
      PairsSplit(h(BlobTag(|b|)), h(b), h(LastString(h, ListTag(n), ys[..|ys| - 1])), ys[|ys| - 1]);
    }
  }

  lemma BlobAgainstList(h: Hash48, x: Nested, y: Nested)
    requires x.Blob? && y.List? && ShortTags(x) && ShortTags(y) && CollisionFree(h, Hashed(h, x) + Hashed(h, y))
    ensures DeepHash(h, x) != DeepHash(h, y)
  {
    var ys := ItemHashes(h, y);
    HashListIsLast(h, y, 0);
    BlobIsNoList(h, x.bytes, |y.items|, ys);
  }

  lemma SameItemHashes(h: Hash48, x: Nested, y: Nested)
    requires x.List? && y.List? && ShortTags(x) && ShortTags(y)
    requires CollisionFree(h, Hashed(h, x) + Hashed(h, y)) && DeepHash(h, x) == DeepHash(h, y)
    ensures |x.items| == |y.items| && ItemHashes(h, x) == ItemHashes(h, y)
  {
    var (xs, ys) := (ItemHashes(h, x), ItemHashes(h, y));
    HashListIsLast(h, x, 0);
    HashListIsLast(h, y, 0);
    SameHashes(h, ListTag(|x.items|), xs, ListTag(|y.items|), ys);
  }

  /** Two nested lists with the same deep hash are the same, unless two of the strings that were hashed
      for them collide. */
  lemma {:induction false} DeepHashInjective(h: Hash48, x: Nested, y: Nested)
    requires ShortTags(x) && ShortTags(y) && CollisionFree(h, Hashed(h, x) + Hashed(h, y))
    requires DeepHash(h, x) == DeepHash(h, y)
    ensures x == y
    decreases x
  {
    if x.Blob? && y.Blob? {
      PairsSplit(h(BlobTag(|x.bytes|)), h(x.bytes), h(BlobTag(|y.bytes|)), h(y.bytes));
    } else if x.Blob? {
      BlobAgainstList(h, x, y);
    } else if y.Blob? {
      BlobAgainstList(h, y, x);
    } else {
      SameItemHashes(h, x, y);
      forall k | 0 <= k < |x.items| ensures x.items[k] == y.items[k] {
        assert ItemHashes(h, x)[k] == ItemHashes(h, y)[k];
        ItemStrings(h, x, |x.items|, k);
        ItemStrings(h, y, |y.items|, k);
        DeepHashInjective(h, x.items[k], y.items[k]);
      }
    }
  }

  //////////////////////////////////////////////////////////////////////////////
  // Small cases, byte by byte
  //////////////////////////////////////////////////////////////////////////////

  function DigitsValue(b: Bytes): nat {
    if b == [] then 0 else DigitsValue(b[..|b| - 1]) * 10 + if b[|b| - 1] >= 48 then b[|b| - 1] as nat - 48 else 0
  }

  /** A number in the tags: its decimal digits, without a zero in front. */
  lemma {:induction false} DecimalDigits(n: nat)
    ensures DigitsValue(Decimal(n)) == n && Decimal(n) != []
    ensures forall d | d in Decimal(n) :: 48 <= d <= 57
    ensures n > 0 ==> Decimal(n)[0] != 48
    decreases n
  {
    var b := Decimal(n);
    if n >= 10 {
      DecimalDigits(n / 10);
      assert b[..|b| - 1] == Decimal(n / 10);
    } else {
      assert b[..0] == [];
    }
  }

  lemma BlobLetters()
    ensures Ascii("blob") == [98, 108, 111, 98]
  {
  }

  /** A blob hashes "blob" and its size, and itself. */
  lemma HashOfBlob(h: Hash48, b: Bytes)
    ensures DeepHash(h, Blob(b)) == h(h([98, 108, 111, 98] + Decimal(|b|)) + h(b))
  {
    BlobLetters();
    assert BlobTag(|b|) == [98, 108, 111, 98] + Decimal(|b|);
  }

  /** The empty list hashes "list0"; a list of two adds its items one by one to the hash of "list2". */
  lemma HashOfLists(h: Hash48, x: Nested, y: Nested)
    ensures DeepHash(h, List([])) == h([108, 105, 115, 116, 48])
    ensures DeepHash(h, List([x, y])) == h(h(h([108, 105, 115, 116, 50]) + DeepHash(h, x)) + DeepHash(h, y))
  {
    assert ListTag(0) == [108, 105, 115, 116, 48] && ListTag(2) == [108, 105, 115, 116, 50];
    var (two, acc) := (List([x, y]), h(ListTag(2)));
    assert HashList(h, two, 0, acc) == HashList(h, two, 1, h(acc + DeepHash(h, x)));
  }
}
