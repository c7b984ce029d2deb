/** The node tables (by id, and by parent and name): linear hashing that splits
    one bucket per insertion and merges a few per removal, so that no operation
    ever rehashes the whole table. The table refines a plain map. */
module NodeTables {
  import opened Wrappers
  import opened Arithmetic

  const NODE_TABLE_MIN_SIZE: nat := 8192

  /** A hashed node: the key its fields give it, and the node itself. */
  datatype Entry<K, V> = Entry(key: K, node: V)

  // ----- hash functions

  /** `(uint32_t) ino * 2654435761U`, before reduction to the table size. */
  function IdHash(ino: nat): nat {
    ((ino % TWO_32) * 2654435761) % TWO_32
  }

  function Power31(n: nat): nat {
    if n == 0 then 1 else 31 * Power31(n - 1)
  }

  /** The characters weighted by powers of 31, the last one by 1. */
  function Weighted(name: seq<nat>): nat {
    if name == [] then 0 else name[0] * Power31(|name| - 1) + Weighted(name[1..])
  }

  /** The hash of a parent id and a name: one polynomial at 31, reduced once. */
  function NameHash(key: (nat, seq<nat>)): nat {
    (key.0 * Power31(|key.1|) + Weighted(key.1)) % TWO_64
  }

  lemma {:induction false} WeightedOneMore(name: seq<nat>, c: nat)
    ensures Weighted(name + [c]) == Weighted(name) * 31 + c
  {
    if name == [] {
      assert ([] + [c])[1..] == [];
    } else {
      WeightedOneMore(name[1..], c);
      assert (name + [c])[1..] == name[1..] + [c];
      assert name[0] * Power31(|name|) == name[0] * Power31(|name| - 1) * 31;
    }
  }

  /** Reducing at every step is reducing once. */
  lemma {:induction false} NameHashOneMore(parent: nat, name: seq<nat>, c: nat)
    ensures NameHash((parent, name + [c])) == (NameHash((parent, name)) * 31 + c) % TWO_64
  {
    WeightedOneMore(name, c);
    var x := parent * Power31(|name|);
    assert parent * Power31(|name| + 1) == x * 31;
    ReducedBefore(x + Weighted(name), c);
  }

  lemma ReducedBefore(x: nat, c: nat)
    ensures (x * 31 + c) % TWO_64 == (x % TWO_64 * 31 + c) % TWO_64
  {
    assert x == x / TWO_64 * TWO_64 + x % TWO_64;
    assert x * 31 + c == (x / TWO_64 * 31) * TWO_64 + (x % TWO_64 * 31 + c);
  }

  /** The loop of `name_hash`, in unsigned 64-bit arithmetic. */
  method ComputeNameHash(parent: nat, name: seq<nat>) returns (hash: nat)
    ensures hash == NameHash((parent, name))
  {
    hash := parent % TWO_64;
    var i := 0;
    assert name[..0] == [];
    while i < |name|
      invariant 0 <= i <= |name| && hash == NameHash((parent, name[..i]))
    {
      NameHashOneMore(parent, name[..i], name[i]);
      assert name[..i + 1] == name[..i] + [name[i]];
      hash := (hash * 31 + name[i]) % TWO_64;
      i := i + 1;
    }
    assert name[..i] == name;
  }

  // ----- bucket arithmetic

  /** The bucket of full hash `h`: a bucket of the lower half below `split` has
      been divided in two, so there the larger modulus decides. */
  function Bucket(h: nat, size: nat, split: nat): nat
    requires size >= 2
  {
    var hash := h % size;
    var oldhash := hash % (size / 2);
    if oldhash >= split then oldhash else hash
  }

  /** Half the table size, after `k` doublings: 4096 doubled `k` times. */
  function HalfSize(k: nat): (n: nat)
    ensures n >= NODE_TABLE_MIN_SIZE / 2
  {
    if k == 0 then NODE_TABLE_MIN_SIZE / 2 else 2 * HalfSize(k - 1)
  }

  /** Halving the modulus: the one fact linear hashing rests on. */
  lemma {:induction false} ModTwice(h: nat, n: nat)
    requires n > 0
    ensures (h % (2 * n)) % n == h % n
    ensures h % (2 * n) == h % n || h % (2 * n) == h % n + n
  {
    var m := 2 * n;
    DivMod(h, m);
    ModHalf(h, n, m, h / m, h % m);
  }

  lemma {:induction false} ModHalf(h: nat, n: nat, m: nat, q: nat, r: nat)
    requires m == 2 * n && h == m * q + r && r < m
    ensures h % n == r % n == if r < n then r else r - n
  {
    Doubled(n, q);
    assert m * q == 2 * n * q;
    if r < n {
      ModIs(h, n, 2 * q, r);
      ModIs(r, n, 0, r);
    } else {
      ModIs(h, n, 2 * q + 1, r - n);
      ModIs(r, n, 1, r - n);
    }
  }

  lemma {:induction false} BucketBounds(h: nat, size: nat, split: nat)
    requires size >= 2 && size % 2 == 0 && split <= size / 2
    ensures Bucket(h, size, split) < size / 2 + split
  {
    ModTwice(h, size / 2);
  }

  /** Splitting bucket `split` sends its elements to itself or to its upper
      partner, and moves nothing else. */
  lemma {:induction false} BucketAfterSplit(h: nat, size: nat, split: nat)
    requires size >= 2 && size % 2 == 0 && split < size / 2
    ensures var lo, hi := split, split + size / 2;
            && Bucket(h, size, split) != hi && Bucket(h, size, split + 1) < size
            && (Bucket(h, size, split) == lo <==> Bucket(h, size, split + 1) in {lo, hi})
            && (Bucket(h, size, split) != lo ==> Bucket(h, size, split + 1) == Bucket(h, size, split))
  {
    ModTwice(h, size / 2);
  }

  /** A fully split table of `size` is an unsplit one of twice the size. */
  lemma {:induction false} BucketAfterDoubling(h: nat, size: nat)
    requires size >= 2 && size % 2 == 0
    ensures Bucket(h, 2 * size, 0) == Bucket(h, size, size / 2) == h % size
  {
    ModTwice(h, size);
    ModTwice(h, size / 2);
  }

  // ----- what the table holds

  /** The fields of `struct node_table`; a chain is the sequence of its nodes. */
  datatype Table<K, V> = Table(buckets: seq<seq<Entry<K, V>>>, use: nat, size: nat, split: nat)

  /** How often entry `e` occurs in bucket `i` of a table that stands for `m`. */
  ghost function Occurrences<K(!new), V(!new)>(e: Entry<K, V>, i: nat, hash: K -> nat, size: nat, split: nat, m: map<K, V>): nat
    requires size >= 2
  {
    if e.key in m && m[e.key] == e.node && Bucket(hash(e.key), size, split) == i then 1 else 0
  }

  /** The table stands for the plain map `m`: every entry of `m` occurs exactly
      once, in the bucket its hash names, nothing else occurs anywhere, and `use`
      counts the entries. The size has been doubled `k` times. */
  ghost predicate Refines<K(!new), V(!new)>(t: Table<K, V>, hash: K -> nat, k: nat, m: map<K, V>) {
    && t.size == 2 * HalfSize(k) && t.size <= |t.buckets| && t.split <= t.size / 2
    && t.use == |m|
    && forall i, e :: 0 <= i < t.size ==> multiset(t.buckets[i])[e] == Occurrences(e, i, hash, t.size, t.split, m)
  }

  lemma Sizes<K(!new), V(!new)>(t: Table<K, V>, hash: K -> nat, k: nat, m: map<K, V>)
    requires Refines(t, hash, k, m)
    ensures t.size == 2 * (t.size / 2) && t.size / 2 >= NODE_TABLE_MIN_SIZE / 2
    ensures t.size <= |t.buckets| && t.split <= t.size / 2
    ensures t.size / 2 >= NODE_TABLE_MIN_SIZE ==> k > 0 && t.size / 2 == 2 * (t.size / 2 / 2)
  {
  }

  lemma MultisetOfParts<T>(s: seq<T>, j: nat)
    requires j < |s|
    ensures multiset(s) == multiset(s[..j]) + multiset{s[j]} + multiset(s[j + 1..])
  {
    assert s == s[..j] + [s[j]] + s[j + 1..];
  }

  /** Upper buckets at or beyond `size / 2 + split` are empty. */
  lemma {:induction false} UpperBucketsEmpty<K(!new), V(!new)>(t: Table<K, V>, hash: K -> nat, k: nat, m: map<K, V>, i: nat)
    requires Refines(t, hash, k, m) && t.size / 2 + t.split <= i < t.size
    ensures t.buckets[i] == []
  {
    TwiceIsEven(HalfSize(k));
    hide HalfSize;
    if t.buckets[i] != [] {
      var e := t.buckets[i][0];
      assert multiset(t.buckets[i])[e] > 0;
      BucketBounds(hash(e.key), t.size, t.split);
      hide Bucket;
    }
  }

  lemma {:induction false} PrependRefines<K(!new), V(!new)>(
      t: Table<K, V>, t': Table<K, V>, hash: K -> nat, k: nat, m: map<K, V>, e: Entry<K, V>)
    requires Refines(t, hash, k, m) && e.key !in m
    requires var i := Bucket(hash(e.key), t.size, t.split);
             i < t.size && t' == t.(buckets := t.buckets[i := [e] + t.buckets[i]], use := t.use + 1)
    ensures Refines(t', hash, k, m[e.key := e.node])
  {
  }

  lemma {:induction false} DeleteRefines<K(!new), V(!new)>(
      t: Table<K, V>, t': Table<K, V>, hash: K -> nat, k: nat, m: map<K, V>, i: nat, j: nat)
    requires Refines(t, hash, k, m) && i < t.size && j < |t.buckets[i]| && t.use > 0
    requires t' == t.(buckets := t.buckets[i := t.buckets[i][..j] + t.buckets[i][j + 1..]], use := t.use - 1)
    ensures var e := t.buckets[i][j]; e.key in m && m[e.key] == e.node && Refines(t', hash, k, m - {e.key})
  {
    var b := t.buckets[i];
    var e := b[j];
    assert multiset(b)[e] > 0;
    MultisetOfParts(b, j);
    assert multiset(b[..j] + b[j + 1..]) == multiset(b[..j]) + multiset(b[j + 1..]);
    assert (m - {e.key}).Keys == m.Keys - {e.key};
    assert |(m - {e.key}).Keys| == |m.Keys| - 1;
    forall x, y | 0 <= x < t'.size
      ensures multiset(t'.buckets[x])[y] == Occurrences(y, x, hash, t'.size, t'.split, m - {e.key})
    {
      assert multiset(t.buckets[x])[y] == Occurrences(y, x, hash, t.size, t.split, m);
    }
  }

  /** Half-way through `rehash_id`: chain `orig` is distributed over `lo` and
      `hi`, and the first `j` elements of `lo` are known to stay. */
  ghost predicate Splitting<K(!new), V(!new)>(
      orig: seq<Entry<K, V>>, lo: seq<Entry<K, V>>, hi: seq<Entry<K, V>>, hash: K -> nat, size: nat, split: nat, j: nat)
  {
    && size >= 2 && j <= |lo|
    && multiset(lo) + multiset(hi) == multiset(orig)
    && (forall e :: e in orig ==> Bucket(hash(e.key), size, split + 1) in {split, split + size / 2})
    && (forall e :: e in lo[..j] ==> Bucket(hash(e.key), size, split + 1) == split)
    && (forall e :: e in hi ==> Bucket(hash(e.key), size, split + 1) == split + size / 2)
  }

  lemma {:induction false} SplitStart<K(!new), V(!new)>(t: Table<K, V>, hash: K -> nat, k: nat, m: map<K, V>)
    requires Refines(t, hash, k, m) && t.split < t.size / 2
    ensures t.buckets[t.split + t.size / 2] == []
    ensures Splitting(t.buckets[t.split], t.buckets[t.split], [], hash, t.size, t.split, 0)
  {
    TwiceIsEven(HalfSize(k));
    UpperBucketsEmpty(t, hash, k, m, t.split + t.size / 2);
    var b := t.buckets[t.split];
    forall e | e in b ensures Bucket(hash(e.key), t.size, t.split + 1) in {t.split, t.split + t.size / 2} {
      BucketAfterSplit(hash(e.key), t.size, t.split);
      assert multiset(b)[e] > 0;
    }
  }

  lemma {:induction false} SplitStep<K(!new), V(!new)>(
      orig: seq<Entry<K, V>>, lo: seq<Entry<K, V>>, hi: seq<Entry<K, V>>, hash: K -> nat, size: nat, split: nat, j: nat)
    requires Splitting(orig, lo, hi, hash, size, split, j) && j < |lo|
    ensures var newhash := Bucket(hash(lo[j].key), size, split + 1);
            && newhash in {split, split + size / 2}
            && (newhash != split ==> Splitting(orig, lo[..j] + lo[j + 1..], [lo[j]] + hi, hash, size, split, j))
            && (newhash == split ==> Splitting(orig, lo, hi, hash, size, split, j + 1))
  {
    var e := lo[j];
    var rest := lo[..j] + lo[j + 1..];
    assert e in multiset(orig);
    MultisetOfParts(lo, j);
    assert multiset(rest) == multiset(lo[..j]) + multiset(lo[j + 1..]);
    assert multiset([e] + hi) == multiset{e} + multiset(hi);
    assert rest[..j] == lo[..j];
    assert lo[..j + 1] == lo[..j] + [e];
  }

  /** Distributing bucket `split` over itself and its empty upper partner. */
  lemma {:induction false} SplitRefines<K(!new), V(!new)>(
      t: Table<K, V>, t': Table<K, V>, hash: K -> nat, k: nat, m: map<K, V>)
    requires Refines(t, hash, k, m) && t.split < t.size / 2 && |t'.buckets| == |t.buckets|
    requires var lo, hi := t.split, t.split + t.size / 2;
             && t' == t.(buckets := t.buckets[lo := t'.buckets[lo]][hi := t'.buckets[hi]], split := t.split + 1)
             && Splitting(t.buckets[lo], t'.buckets[lo], t'.buckets[hi], hash, t.size, t.split, |t'.buckets[lo]|)
    ensures Refines(t', hash, k, m)
  {
    TwiceIsEven(HalfSize(k));
    hide Bucket;
    var lo, hi := t.split, t.split + t.size / 2;
    var chain, upper := t'.buckets[lo], t'.buckets[hi];
    assert chain[..|chain|] == chain;
    forall i, e: Entry<K, V> | 0 <= i < t.size
      ensures multiset(t'.buckets[i])[e] == Occurrences(e, i, hash, t.size, t'.split, m)
    {
      BucketAfterSplit(hash(e.key), t.size, t.split);
      assert e in chain <==> multiset(chain)[e] > 0;
      assert e in upper <==> multiset(upper)[e] > 0;
      assert multiset(t.buckets[lo])[e] == multiset(chain)[e] + multiset(upper)[e];
    }
  }

  /** The inverse step: an upper bucket is appended to its lower partner. */
  lemma {:induction false} MergeRefines<K(!new), V(!new)>(
      t: Table<K, V>, t': Table<K, V>, hash: K -> nat, k: nat, m: map<K, V>)
    requires Refines(t, hash, k, m) && 0 < t.split
    requires var lo, hi := t.split - 1, t.split - 1 + t.size / 2;
             t' == t.(buckets := t.buckets[lo := t.buckets[lo] + t.buckets[hi]][hi := []], split := lo)
    ensures Refines(t', hash, k, m)
  {
    TwiceIsEven(HalfSize(k));
    hide HalfSize, Bucket;
    var lo, hi := t.split - 1, t.split - 1 + t.size / 2;
    assert multiset(t'.buckets[lo]) == multiset(t.buckets[lo]) + multiset(t.buckets[hi]);
    forall i, e: Entry<K, V> | 0 <= i < t.size
      ensures multiset(t'.buckets[i])[e] == Occurrences(e, i, hash, t.size, lo, m)
    {
      BucketAfterSplit(hash(e.key), t.size, lo);
    }
  }

  lemma {:induction false} DoubledOccurrences<K(!new), V(!new)>(
      e: Entry<K, V>, i: nat, hash: K -> nat, size: nat, m: map<K, V>)
    requires size >= 2 && size % 2 == 0
    ensures Occurrences(e, i, hash, 2 * size, 0, m) == if i < size then Occurrences(e, i, hash, size, size / 2, m) else 0
  {
    BucketAfterDoubling(hash(e.key), size);
    DivMod(hash(e.key), size);
    hide Bucket;
  }

  /** When every bucket is split, the same buckets serve a table of twice the
      size, given empty upper ones. */
  lemma {:induction false} DoublingRefines<K(!new), V(!new)>(
      t: Table<K, V>, t': Table<K, V>, hash: K -> nat, k: nat, m: map<K, V>)
    requires Refines(t, hash, k, m) && t.split == t.size / 2
    requires t'.size == 2 * t.size <= |t'.buckets| && t'.split == 0 && t'.use == t.use
    requires forall i :: 0 <= i < t.size ==> t'.buckets[i] == t.buckets[i]
    requires forall i :: t.size <= i < t'.size ==> t'.buckets[i] == []
    ensures Refines(t', hash, k + 1, m)
  {
    TwiceIsEven(HalfSize(k));
    hide Occurrences;
    forall i, e: Entry<K, V> | 0 <= i < t'.size
      ensures multiset(t'.buckets[i])[e] == Occurrences(e, i, hash, t'.size, 0, m)
    {
      DoubledOccurrences(e, i, hash, t.size, m);
    }
  }

  /** When no bucket is split, the upper half is unused and can go. */
  lemma {:induction false} HalvingRefines<K(!new), V(!new)>(
      t: Table<K, V>, t': Table<K, V>, hash: K -> nat, k: nat, m: map<K, V>)
    requires Refines(t, hash, k, m) && t.split == 0 && k > 0
    requires t'.size == t.size / 2 <= |t'.buckets| && t'.split == t'.size / 2 && t'.use == t.use
    requires forall i :: 0 <= i < t'.size ==> t'.buckets[i] == t.buckets[i]
    ensures Refines(t', hash, k - 1, m)
  {
    TwiceIsEven(HalfSize(k));
    hide Occurrences;
    assert HalfSize(k) == 2 * HalfSize(k - 1);
    TwiceIsEven(HalfSize(k - 1));
    forall i, e: Entry<K, V> | 0 <= i < t'.size
      ensures multiset(t'.buckets[i])[e] == Occurrences(e, i, hash, t'.size, t'.split, m)
    {
      DoubledOccurrences(e, i, hash, t'.size, m);
    }
  }

  /** `realloc` to `n` buckets, of which the first `used` keep their chains and
      the rest are cleared. */
  method Reallocate<T>(a: array<seq<T>>, used: nat, n: nat) returns (r: array<seq<T>>)
    requires used <= a.Length && used <= n
    ensures fresh(r) && r.Length == n
    ensures forall i :: 0 <= i < used ==> r[i] == a[i]
    ensures forall i :: used <= i < n ==> r[i] == []
  {
    r := new seq<T>[n](_ => []);
    for i := 0 to used
      invariant forall j :: 0 <= j < n ==> r[j] == if j < i then a[j] else []
    {
      r[i] := a[i];
    }
  }

  class NodeTable<K(!new, ==), V(!new, ==)> {
    const hash: K -> nat
    var buckets: array<seq<Entry<K, V>>>
    var use: nat
    var size: nat
    var split: nat
    /** The plain map that the table stands for. */
    ghost var contents: map<K, V>
    ghost var doublings: nat

    ghost function Fields(): Table<K, V>
      reads this, buckets
    {
      Table(buckets[..], use, size, split)
    }

    ghost predicate Valid()
      reads this, buckets
    {
      Refines(Fields(), hash, doublings, contents)
    }

    /** The number of buckets that are in use as such. */
    ghost function Active(): nat
      reads this
    {
      size / 2 + split
    }

    /** `node_table_init`. */
    constructor (hash: K -> nat)
      ensures Valid() && fresh(buckets) && contents == map[]
      ensures this.hash == hash && size == NODE_TABLE_MIN_SIZE && split == 0
    {
      this.hash := hash;
      size, split, use := NODE_TABLE_MIN_SIZE, 0, 0;
      contents, doublings := map[], 0;
      buckets := new seq<Entry<K, V>>[NODE_TABLE_MIN_SIZE](_ => []);
    }

    /** `get_node_nocheck`, `lookup_node`. */
    method Lookup(key: K) returns (r: Option<V>)
      requires Valid()
      ensures r == if key in contents then Some(contents[key]) else None
    {
      var i := Bucket(hash(key), size, split);
      BucketBounds(hash(key), size, split);
      assert key in contents ==> multiset(buckets[..][i])[Entry(key, contents[key])] == 1;
      var j := 0;
      while j < |buckets[i]|
        invariant 0 <= j <= |buckets[i]|
        invariant forall e :: e in buckets[i][..j] ==> e.key != key
      {
        if buckets[i][j].key == key {
          assert multiset(buckets[..][i])[buckets[i][j]] > 0;
          return Some(buckets[i][j].node);
        }
        j := j + 1;
      }
      assert buckets[i][..j] == buckets[i];
      r := None;
    }

    /** `hash_id`, and the table part of `hash_name`. `grows` says whether a
        `realloc` to a larger array would succeed. */
    method Insert(key: K, node: V, grows: bool)
      requires Valid() && key !in contents
      modifies this, buckets
      ensures Valid() && (buckets == old(buckets) || fresh(buckets))
      ensures contents == old(contents)[key := node]
      ensures var splits := |old(contents)| + 1 >= old(size) / 2 && old(split) < old(size) / 2;
              && Active() == old(Active()) + (if splits then 1 else 0)
              && size == if splits && old(split) + 1 == old(size) / 2 && grows then 2 * old(size) else old(size)
    {
      var i := Bucket(hash(key), size, split);
      BucketBounds(hash(key), size, split);
      ghost var t := Fields();
      buckets[i] := [Entry(key, node)] + buckets[i];
      use := use + 1;
      PrependRefines(t, Fields(), hash, doublings, contents, Entry(key, node));
      contents := contents[key := node];
      if use >= size / 2 {
        Rehash(grows);
      }
    }

    /** `rehash_id`, `rehash_name`: splits one bucket, and doubles the table when all
        are split. If the `realloc` for that fails, nothing is ever split again until
        a removal has merged some. */
    method Rehash(grows: bool)
      requires Valid()
      modifies this, buckets
      ensures Valid() && (buckets == old(buckets) || fresh(buckets))
      ensures contents == old(contents) && use == old(use)
      ensures Active() == old(Active()) + if old(split) < old(size) / 2 then 1 else 0
      ensures size == if old(split) + 1 == old(size) / 2 && grows then 2 * old(size) else old(size)
    {
      hide HalfSize, Splitting, Refines;
      Sizes(Fields(), hash, doublings, contents);
      if split == size / 2 {
        return;
      }
      var lo, hi := split, split + size / 2;
      ghost var t := Fields();
      SplitStart(t, hash, doublings, contents);
      split := split + 1;
      Distribute(lo, hi, t.buckets[lo]);
      SplitRefines(t, Fields(), hash, doublings, contents);
      if split == size / 2 && grows {
        Resize();
      }
    }

    /** The loop of `rehash_id`: walks the chain of the bucket just split and
        moves what now hashes to the upper partner. */
    method Distribute(lo: nat, hi: nat, ghost orig: seq<Entry<K, V>>)
      requires split == lo + 1 && hi == lo + size / 2 && lo < hi < size <= buckets.Length
      requires buckets[lo] == orig && buckets[hi] == []
      requires Splitting(orig, orig, [], hash, size, lo, 0)
      modifies buckets
      ensures buckets[..] == old(buckets[..])[lo := buckets[lo]][hi := buckets[hi]]
      ensures Splitting(orig, buckets[lo], buckets[hi], hash, size, lo, |buckets[lo]|)
    {
      var j := 0;
      while j < |buckets[lo]|
        invariant forall i :: 0 <= i < buckets.Length && i != lo && i != hi ==> buckets[i] == old(buckets[i])
        invariant Splitting(orig, buckets[lo], buckets[hi], hash, size, lo, j)
        decreases |buckets[lo]| - j
      {
        var e := buckets[lo][j];
        var newhash := Bucket(hash(e.key), size, split);
        SplitStep(orig, buckets[lo], buckets[hi], hash, size, lo, j);
        if newhash != lo {
          assert newhash == hi;
          buckets[lo] := buckets[lo][..j] + buckets[lo][j + 1..];
          buckets[newhash] := [e] + buckets[newhash];
        } else {
          j := j + 1;
        }
      }
    }

    /** `node_table_resize`, where `realloc` succeeds. */
    method Resize()
      requires Valid() && split == size / 2
      modifies this
      ensures Valid() && fresh(buckets)
      ensures contents == old(contents) && use == old(use) && size == 2 * old(size) && split == 0
      ensures size / 2 == old(size)
    {
      ghost var t := Fields();
      TwiceIsEven(size);
      buckets := Reallocate(buckets, size, size * 2);
      size := size * 2;
      split := 0;
      DoublingRefines(t, Fields(), hash, doublings, contents);
      doublings := doublings + 1;
    }

    /** `unhash_id`, and the table part of `unhash_name`: takes out `node`, if it
        is there. `shrinks` says whether a `realloc` to a smaller array would
        succeed. */
    method Remove(key: K, node: V, shrinks: bool) returns (found: bool)
      requires Valid()
      modifies this, buckets
      ensures Valid() && (buckets == old(buckets) || fresh(buckets))
      ensures found <==> key in old(contents) && old(contents)[key] == node
      ensures contents == if found then old(contents) - {key} else old(contents)
      ensures if found && |contents| < old(size) / 4 then old(Active()) - 8 <= Active() <= old(Active())
              else Active() == old(Active()) && size == old(size)
    {
      var i := Bucket(hash(key), size, split);
      BucketBounds(hash(key), size, split);
      ghost var t := Fields();
      ghost var e := Entry(key, node);
      assert e in t.buckets[i] <==> multiset(t.buckets[i])[e] > 0;
      assert e in t.buckets[i] <==> key in contents && contents[key] == node;
      var j := 0;
      while j < |buckets[i]|
        invariant 0 <= j <= |buckets[i]| && e !in buckets[i][..j]
      {
        if buckets[i][j] == Entry(key, node) {
          buckets[i] := buckets[i][..j] + buckets[i][j + 1..];
          use := use - 1;
          DeleteRefines(t, Fields(), hash, doublings, contents, i, j);
          contents := contents - {key};
          if use < size / 4 {
            Remerge(shrinks);
          }
          return true;
        }
        j := j + 1;
      }
      assert buckets[i][..j] == buckets[i];
      found := false;
    }

    /** `remerge_id`, `remerge_name`: merges buckets back until one was not empty,
        eight at most. */
    method Remerge(shrinks: bool)
      requires Valid()
      modifies this, buckets
      ensures Valid() && (buckets == old(buckets) || fresh(buckets))
      ensures contents == old(contents) && use == old(use)
      ensures old(Active()) - 8 <= Active() <= old(Active())
      ensures Active() == old(Active()) <==> old(split) == 0 && old(size) / 2 < NODE_TABLE_MIN_SIZE
    {
      if split == 0 {
        Reduce(shrinks);
      }
      var iter := 8;
      while split > 0 && iter > 0
        invariant Valid() && (buckets == old(buckets) || fresh(buckets))
        invariant contents == old(contents) && use == old(use)
        invariant 0 <= iter <= 8 && Active() == old(Active()) - (8 - iter)
        invariant old(split) == 0 && old(size) / 2 < NODE_TABLE_MIN_SIZE ==> split == 0
        invariant iter == 8 ==> split > 0 || (old(split) == 0 && old(size) / 2 < NODE_TABLE_MIN_SIZE)
      {
        var moved := MergeOne();
        if moved {
          break;
        }
        iter := iter - 1;
      }
    }

    /** Undoes one split: appends the upper partner's chain to its lower bucket. */
    method MergeOne() returns (moved: bool)
      requires Valid() && split > 0
      modifies this`split, buckets
      ensures Valid() && split == old(split) - 1
    {
      ghost var t := Fields();
      split := split - 1;
      var upper := split + size / 2;
      moved := buckets[upper] != [];
      if moved {
        buckets[split] := buckets[split] + buckets[upper];
        buckets[upper] := [];
      } else {
        assert t.buckets[split] + [] == t.buckets[split];
      }
      MergeRefines(t, Fields(), hash, doublings, contents);
    }

    /** `node_table_reduce`: a failed `realloc` leaves the larger array in place. */
    method Reduce(shrinks: bool)
      requires Valid() && split == 0
      modifies this
      ensures Valid() && (buckets == old(buckets) || fresh(buckets))
      ensures contents == old(contents) && use == old(use)
      ensures if old(size) / 2 < NODE_TABLE_MIN_SIZE then size == old(size) && split == 0
              else size == old(size) / 2 && split == size / 2 && Active() == old(Active())
    {
      hide HalfSize, Refines;
      Sizes(Fields(), hash, doublings, contents);
      var newsize := size / 2;
      if newsize < NODE_TABLE_MIN_SIZE {
        return;
      }
      ghost var t := Fields();
      if shrinks {
        buckets := Reallocate(buckets, newsize, newsize);
      }
      size := newsize;
      split := newsize / 2;
      HalvingRefines(t, Fields(), hash, doublings, contents);
      doublings := doublings - 1;
    }
  }

  /** The two tables that `fuse_new` creates. */
  method NewTables<V(!new, ==)>() returns (ids: NodeTable<nat, V>, names: NodeTable<(nat, seq<nat>), V>)
    ensures fresh(ids) && fresh(names) && ids.Valid() && names.Valid() && ids.contents == map[] && names.contents == map[]
    ensures (forall ino :: ids.hash(ino) == IdHash(ino)) && forall key :: names.hash(key) == NameHash(key)
  {
    ids := new NodeTable<nat, V>(ino => IdHash(ino));
    names := new NodeTable<(nat, seq<nat>), V>(key => NameHash(key));
  }
}
