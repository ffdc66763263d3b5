/** The chained hash table (pintos/src/lib/kernel/hash.c). Its abstract value is a finite set of elements
    no two of which are equal in the sense of the less function, that is a finite map keyed by the
    elements' classes. */
module Hash {
  import opened Bits
  import opened Options

  /** Neither is less than the other. */
  predicate Same<E>(less: (E, E) -> bool, a: E, b: E) {
    !less(a, b) && !less(b, a)
  }

  /** The sense in which equal elements are equal is an equivalence, and hash respects it. */
  ghost predicate Lawful<E(!new)>(hash: E -> nat, less: (E, E) -> bool) {
    && (forall a :: Same(less, a, a))
    && (forall a, b, c :: Same(less, a, b) && Same(less, b, c) ==> Same(less, a, c))
    && (forall a, b :: Same(less, a, b) ==> hash(a) == hash(b))
  }

  /** The abstract value of a table: an element of each class at most. */
  ghost predicate Unique<E(!new)>(less: (E, E) -> bool, s: set<E>) {
    forall a, b | a in s && b in s && Same(less, a, b) :: a == b
  }

  /** r is what a look-up of x in s returns: the element equal to x, if there is one. */
  ghost predicate Lookup<E(!new)>(less: (E, E) -> bool, s: set<E>, x: E, r: Option<E>) {
    match r
    case Some(e) => e in s && Same(less, e, x)
    case None => forall e | e in s :: !Same(less, e, x)
  }

  lemma {:induction false} LookupUnique<E(!new)>(hash: E -> nat, less: (E, E) -> bool, s: set<E>, x: E, q: Option<E>,
      r: Option<E>)
    requires Lawful(hash, less) && Unique(less, s) && Lookup(less, s, x, q) && Lookup(less, s, x, r)
    ensures q == r
  {
    if q.Some? && r.Some? {
      assert Same(less, x, r.value);
      assert Same(less, q.value, r.value);
    }
  }

  // ----- the number of buckets

  predicate IsPowerOfTwo(x: nat): (b: bool)
    ensures b <==> PowerOfTwo(x)
  {
    if x == 0 then
      assert forall k: nat :: Pow2(k) != 0;
      false
    else
      ClearLowest(x);
      And(x, x - 1) == 0
  }

  function Wanted(elemCnt: nat): nat { if elemCnt / 2 < 4 then 4 else elemCnt / 2 }

  /** n is the largest power of two not above max(4, elemCnt / 2). */
  ghost predicate IsBest(n: nat, elemCnt: nat) {
    PowerOfTwo(n) && n <= Wanted(elemCnt) && forall m: nat | PowerOfTwo(m) && m <= Wanted(elemCnt) :: m <= n
  }

  lemma {:induction false} NextPower(n: nat, m: nat)
    requires PowerOfTwo(n) && PowerOfTwo(m) && n < m
    ensures 2 * n <= m
  {
    var i: nat, j: nat :| n == Pow2(i) && m == Pow2(j);
    if i < j { PowIncreases(i, j); } else if j < i { PowIncreases(j, i); }
  }

  method BestBucketCnt(elemCnt: nat) returns (n: nat)
    ensures IsBest(n, elemCnt) && n >= 4
  {
    n := elemCnt / 2;
    if n < 4 { n := 4; }
    while !IsPowerOfTwo(n)
      invariant 0 < n <= Wanted(elemCnt) && Top(n) == Top(Wanted(elemCnt))
      decreases n
    {
      ClearLowest(n);
      n := And(n, n - 1);
    }
    ClearLowest(n);
    TopIsBest(elemCnt);
  }

  lemma {:induction false} TopIsBest(elemCnt: nat)
    ensures IsBest(Top(Wanted(elemCnt)), elemCnt) && Top(Wanted(elemCnt)) >= 4
  {
    var n := Top(Wanted(elemCnt));
    TopIsPower(Wanted(elemCnt));
    forall m: nat | PowerOfTwo(m) && m <= Wanted(elemCnt) ensures m <= n {
      if n < m { NextPower(n, m); }
    }
    assert PowerOfTwo(4) by { assert Pow2(2) == 4; }
  }

  // ----- buckets

  function BucketIdx<E>(hash: E -> nat, n: nat, e: E): nat
    requires n > 0
  {
    And(hash(e), n - 1)
  }

  lemma {:induction false} BucketIdxInRange<E>(hash: E -> nat, n: nat, e: E)
    requires PowerOfTwo(n)
    ensures BucketIdx(hash, n, e) == hash(e) % n < n
  {
    var k: nat :| n == Pow2(k);
    MaskMod(hash(e), k);
  }

  ghost predicate BucketOk<E(!new)>(hash: E -> nat, less: (E, E) -> bool, b: seq<E>, k: nat, n: nat)
    requires n > 0
  {
    && (forall e | e in b :: BucketIdx(hash, n, e) == k)
    && (forall i, j | 0 <= i < j < |b| :: !Same(less, b[i], b[j]))
  }

  ghost predicate TableOk<E(!new)>(hash: E -> nat, less: (E, E) -> bool, t: seq<seq<E>>) {
    |t| >= 4 && PowerOfTwo(|t|) && forall k :: 0 <= k < |t| ==> BucketOk(hash, less, t[k], k, |t|)
  }

  ghost function Elems<E(!new)>(t: seq<seq<E>>): set<E> {
    set k, i | 0 <= k < |t| && 0 <= i < |t[k]| :: t[k][i]
  }

  function Total<E>(t: seq<seq<E>>): nat {
    if t == [] then 0 else Total(t[..|t| - 1]) + |t[|t| - 1]|
  }

  lemma {:induction false} TotalUpdate<E>(t: seq<seq<E>>, k: nat, b: seq<E>)
    requires k < |t|
    ensures Total(t[k := b]) == Total(t) - |t[k]| + |b|
  {
    var n := |t| - 1;
    if k < n {
      assert t[k := b][..n] == t[..n][k := b];
      TotalUpdate(t[..n], k, b);
    } else {
      assert t[k := b][..n] == t[..n];
    }
  }

  function Empty<E>(n: nat): seq<seq<E>> { seq(n, _ => []) }

  lemma {:induction false} TotalEmpty<E>(n: nat)
    ensures Total(Empty<E>(n)) == 0
  {
    if n > 0 {
      assert Empty<E>(n)[..n - 1] == Empty<E>(n - 1);
      TotalEmpty<E>(n - 1);
    }
  }

  lemma {:induction false} ElemsAt<E(!new)>(hash: E -> nat, less: (E, E) -> bool, t: seq<seq<E>>, e: E)
    requires TableOk(hash, less, t)
    ensures BucketIdx(hash, |t|, e) < |t|
    ensures e in Elems(t) <==> e in t[BucketIdx(hash, |t|, e)]
  {
    BucketIdxInRange(hash, |t|, e);
    if e in Elems(t) {
      var k, i :| 0 <= k < |t| && 0 <= i < |t[k]| && t[k][i] == e;
      assert BucketOk(hash, less, t[k], k, |t|) && e in t[k];
    }
    var c := BucketIdx(hash, |t|, e);
    if e in t[c] {
      var i :| 0 <= i < |t[c]| && t[c][i] == e;
      assert e in Elems(t);
    }
  }

  /** Equal elements of a table are one. */
  lemma {:induction false} ElemsUnique<E(!new)>(hash: E -> nat, less: (E, E) -> bool, t: seq<seq<E>>)
    requires Lawful(hash, less) && TableOk(hash, less, t)
    ensures Unique(less, Elems(t))
  {
    forall a, b | a in Elems(t) && b in Elems(t) && Same(less, a, b) ensures a == b {
      ElemsAt(hash, less, t, a);
      ElemsAt(hash, less, t, b);
      var k := BucketIdx(hash, |t|, a);
      assert hash(a) == hash(b);
      var i :| 0 <= i < |t[k]| && t[k][i] == a;
      var j :| 0 <= j < |t[k]| && t[k][j] == b;
      assert BucketOk(hash, less, t[k], k, |t|);
      assert Same(less, b, a);
    }
  }

  // ----- changes

  function Push<E>(hash: E -> nat, t: seq<seq<E>>, e: E): seq<seq<E>>
    requires |t| > 0 && BucketIdx(hash, |t|, e) < |t|
  {
    var k := BucketIdx(hash, |t|, e); t[k := [e] + t[k]]
  }

  lemma {:induction false} PushOk<E(!new)>(hash: E -> nat, less: (E, E) -> bool, t: seq<seq<E>>, e: E)
    requires TableOk(hash, less, t) && forall f | f in Elems(t) :: !Same(less, e, f)
    ensures BucketIdx(hash, |t|, e) < |t| && TableOk(hash, less, Push(hash, t, e))
    ensures Elems(Push(hash, t, e)) == Elems(t) + {e} && Total(Push(hash, t, e)) == Total(t) + 1
  {
    BucketIdxInRange(hash, |t|, e);
    var k := BucketIdx(hash, |t|, e);
    var t' := Push(hash, t, e);
    TotalUpdate(t, k, [e] + t[k]);
    assert BucketOk(hash, less, t[k], k, |t|);
    PushBucket(hash, less, t, e, k);
    forall c | 0 <= c < |t'| ensures BucketOk(hash, less, t'[c], c, |t'|) { assert BucketOk(hash, less, t[c], c, |t|); }
    PushElems(hash, t, e);
  }

  lemma {:induction false} PushBucket<E(!new)>(hash: E -> nat, less: (E, E) -> bool, t: seq<seq<E>>, e: E, k: nat)
    requires k < |t| && BucketIdx(hash, |t|, e) == k && BucketOk(hash, less, t[k], k, |t|)
      && forall f | f in Elems(t) :: !Same(less, e, f)
    ensures BucketOk(hash, less, [e] + t[k], k, |t|)
  {
    var b := [e] + t[k];
    forall i, j | 0 <= i < j < |b| ensures !Same(less, b[i], b[j]) {
      if i == 0 { assert t[k][j - 1] in Elems(t); } else { assert !Same(less, t[k][i - 1], t[k][j - 1]); }
    }
  }

  lemma {:induction false} PushElems<E(!new)>(hash: E -> nat, t: seq<seq<E>>, e: E)
    requires |t| > 0 && BucketIdx(hash, |t|, e) < |t|
    ensures Elems(Push(hash, t, e)) == Elems(t) + {e}
  {
    var k, t' := BucketIdx(hash, |t|, e), Push(hash, t, e);
    assert t'[k][0] == e;
    forall f | f in Elems(t) ensures f in Elems(t') {
      var c, i :| 0 <= c < |t| && 0 <= i < |t[c]| && t[c][i] == f;
      if c == k { assert t'[c][i + 1] == f; } else { assert t'[c][i] == f; }
    }
    forall f | f in Elems(t') ensures f in Elems(t) || f == e {
      var c, i :| 0 <= c < |t'| && 0 <= i < |t'[c]| && t'[c][i] == f;
      if c != k { assert t[c][i] == f; } else if i > 0 { assert t[c][i - 1] == f; }
    }
  }

  function Cut<E>(t: seq<seq<E>>, k: nat, i: nat): seq<seq<E>>
    requires k < |t| && i < |t[k]|
  {
    t[k := t[k][..i] + t[k][i + 1..]]
  }

  lemma {:induction false} CutOk<E(!new)>(hash: E -> nat, less: (E, E) -> bool, t: seq<seq<E>>, k: nat, i: nat)
    requires Lawful(hash, less) && TableOk(hash, less, t) && k < |t| && i < |t[k]|
    ensures TableOk(hash, less, Cut(t, k, i)) && Total(Cut(t, k, i)) == Total(t) - 1
    ensures Elems(Cut(t, k, i)) == Elems(t) - {t[k][i]} && t[k][i] in Elems(t)
  {
    var t', b := Cut(t, k, i), t[k][..i] + t[k][i + 1..];
    TotalUpdate(t, k, b);
    assert BucketOk(hash, less, t[k], k, |t|);
    assert forall j | 0 <= j < |b| :: b[j] == if j < i then t[k][j] else t[k][j + 1];
    forall c | 0 <= c < |t'| ensures BucketOk(hash, less, t'[c], c, |t'|) { assert BucketOk(hash, less, t[c], c, |t|); }
    CutElems(hash, less, t, k, i);
  }

  lemma {:induction false} CutElems<E(!new)>(hash: E -> nat, less: (E, E) -> bool, t: seq<seq<E>>, k: nat, i: nat)
    requires Lawful(hash, less) && TableOk(hash, less, t) && k < |t| && i < |t[k]|
    ensures Elems(Cut(t, k, i)) == Elems(t) - {t[k][i]}
  {
    var t', x := Cut(t, k, i), t[k][i];
    forall f | f in Elems(t) && f != x ensures f in Elems(t') {
      var c, j :| 0 <= c < |t| && 0 <= j < |t[c]| && t[c][j] == f;
      if c != k || j < i { assert t'[c][j] == f; } else { assert t'[c][j - 1] == f; }
    }
    forall f | f in Elems(t') ensures f in Elems(t) && f != x {
      var c, j :| 0 <= c < |t'| && 0 <= j < |t'[c]| && t'[c][j] == f;
      var j' := if c == k && j >= i then j + 1 else j;
      assert t[c][j'] == f;
      assert Same(less, x, x);
      assert BucketOk(hash, less, t[k], k, |t|) && BucketOk(hash, less, t[c], c, |t|);
      assert f in t[c] && x in t[k];
      assert c == k && j' < i ==> !Same(less, t[k][j'], t[k][i]);
      assert c == k && j' > i ==> !Same(less, t[k][i], t[k][j']);
    }
  }

  class Table<E(!new, ==)> {
    const hash: E -> nat
    const less: (E, E) -> bool
    var elemCnt: nat
    var buckets: seq<seq<E>>

    ghost function Contents(): set<E> reads this { Elems(buckets) }

    ghost predicate Valid() reads this {
      Lawful(hash, less) && TableOk(hash, less, buckets) && elemCnt == Total(buckets) == |Contents()|
    }

    /** hash_init, when the buckets can be allocated */
    constructor (hash: E -> nat, less: (E, E) -> bool)
      requires Lawful(hash, less)
      ensures Valid() && Contents() == {} && this.hash == hash && this.less == less
    {
      this.hash, this.less := hash, less;
      elemCnt, buckets := 0, Empty(4);
      new;
      TotalEmpty<E>(4);
      assert PowerOfTwo(4) by { assert Pow2(2) == 4; }
    }

    /** The position in bucket k of the element equal to e */
    method FindElem(k: nat, e: E) returns (r: Option<nat>)
      requires Valid() && k < |buckets| && k == BucketIdx(hash, |buckets|, e)
      ensures r.Some? ==> r.value < |buckets[k]| && Same(less, buckets[k][r.value], e)
      ensures Lookup(less, Contents(), e, if r.Some? then Some(buckets[k][r.value]) else None)
    {
      var i := 0;
      while i < |buckets[k]|
        invariant i <= |buckets[k]| && forall j | 0 <= j < i :: !Same(less, buckets[k][j], e)
      {
        if !less(buckets[k][i], e) && !less(e, buckets[k][i]) {
          assert buckets[k][i] in Contents();
          return Some(i);
        }
        i := i + 1;
      }
      forall f | f in Contents() ensures !Same(less, f, e) {
        ElemsAt(hash, less, buckets, f);
        assert Same(less, f, e) ==> hash(f) == hash(e);
      }
      return None;
    }

    method Find(e: E) returns (r: Option<E>)
      requires Valid()
      ensures Lookup(less, Contents(), e, r)
    {
      BucketIdxInRange(hash, |buckets|, e);
      var k := BucketIdx(hash, |buckets|, e);
      var i := FindElem(k, e);
      return if i.Some? then Some(buckets[k][i.value]) else None;
    }

    /** memory tells whether the new buckets can be allocated. */
    method Rehash(memory: bool)
      requires Valid()
      modifies this`buckets
      ensures Valid() && Contents() == old(Contents())
      ensures memory ==> IsBest(|buckets|, elemCnt)
      ensures !memory ==> buckets == old(buckets)
    {
      var n := BestBucketCnt(elemCnt);
      if n == |buckets| || !memory { return; }
      var news := MoveAll(n);
      buckets := news;
    }

    /** The loops that move each element from the old buckets to the front of its new one */
    method MoveAll(n: nat) returns (news: seq<seq<E>>)
      requires Valid() && PowerOfTwo(n) && n >= 4
      ensures |news| == n && TableOk(hash, less, news) && Elems(news) == Contents() && Total(news) == elemCnt
    {
      news := Empty(n);
      TotalEmpty<E>(n);
      var k := 0;
      assert Elems(buckets[..0]) == {} && Elems(news) == {};
      while k < |buckets|
        invariant k <= |buckets| && |news| == n && TableOk(hash, less, news)
        invariant Elems(news) == Elems(buckets[..k]) && Total(news) == Total(buckets[..k])
      {
        news := MoveBucket(news, k);
        k := k + 1;
      }
      assert buckets[..k] == buckets;
    }

    method MoveBucket(news0: seq<seq<E>>, k: nat) returns (news: seq<seq<E>>)
      requires Valid() && k < |buckets| && TableOk(hash, less, news0)
      requires Elems(news0) == Elems(buckets[..k]) && Total(news0) == Total(buckets[..k])
      ensures |news| == |news0| && TableOk(hash, less, news)
      ensures Elems(news) == Elems(buckets[..k + 1]) && Total(news) == Total(buckets[..k + 1])
    {
      news := news0;
      SeenNone(buckets, k);
      var i := 0;
      while i < |buckets[k]|
        invariant i <= |buckets[k]| && |news| == |news0| && TableOk(hash, less, news)
        invariant Elems(news) == Seen(buckets, k, i) && Total(news) == Total(buckets[..k]) + i
      {
        var e := buckets[k][i];
        NotYetMoved(hash, less, buckets, k, i);
        PushOk(hash, less, news, e);
        SeenNext(buckets, k, i);
        var c := BucketIdx(hash, |news|, e);
        news := news[c := [e] + news[c]];
        i := i + 1;
      }
      assert buckets[..k + 1][..k] == buckets[..k];
      SeenAll(buckets, k);
    }

    /** hash_clear; destroyed lists the elements the destructor is called for, if there is one. */
    method Clear(destructor: bool) returns (destroyed: seq<E>)
      requires Valid()
      modifies this
      ensures Valid() && Contents() == {} && |buckets| == |old(buckets)|
      // once for each element
      ensures destructor ==> AsSet(destroyed) == old(Contents()) && |destroyed| == |old(Contents())|
      ensures !destructor ==> destroyed == []
    {
      destroyed := [];
      var k := 0;
      ghost var t := buckets;
      assert Elems(t[..0]) == {};
      while k < |buckets|
        invariant k <= |buckets| == |t| && forall c | 0 <= c < |t| :: buckets[c] == if c < k then [] else t[c]
        invariant destructor ==> AsSet(destroyed) == Elems(t[..k]) && |destroyed| == Total(t[..k])
        invariant !destructor ==> destroyed == []
      {
        if destructor {
          var out := PopAll(buckets[k]);
          DestroyedNext(t, k, destroyed);
          destroyed := destroyed + out;
        }
        buckets := buckets[k := []];
        k := k + 1;
      }
      assert t[..k] == t;
      assert buckets == Empty<E>(|t|);
      elemCnt := 0;
      TotalEmpty<E>(|t|);
    }

    /** Elements popped from the front of a bucket until it is empty */
    method PopAll(bucket: seq<E>) returns (out: seq<E>)
      ensures out == bucket
    {
      out := [];
      var rest := bucket;
      while rest != []
        invariant out + rest == bucket
        decreases |rest|
      {
        out := out + [rest[0]];
        rest := rest[1..];
      }
    }

    method Insert(x: E, memory: bool) returns (r: Option<E>)
      requires Valid()
      modifies this
      ensures Valid() && Lookup(less, old(Contents()), x, r)
      ensures Contents() == if r.Some? then old(Contents()) else old(Contents()) + {x}
      ensures memory ==> IsBest(|buckets|, elemCnt)
    {
      BucketIdxInRange(hash, |buckets|, x);
      var k := BucketIdx(hash, |buckets|, x);
      var i := FindElem(k, x);
      r := if i.Some? then Some(buckets[k][i.value]) else None;
      if r.None? { InsertElem(k, x); }
      Rehash(memory);
    }

    method InsertElem(k: nat, x: E)
      requires Valid() && k < |buckets| && k == BucketIdx(hash, |buckets|, x) && Lookup(less, Contents(), x, None)
      modifies this
      ensures Valid() && Contents() == old(Contents()) + {x} && |buckets| == |old(buckets)|
    {
      assert forall f | f in Contents() :: !Same(less, f, x) && !Same(less, x, f);
      assert Same(less, x, x);
      PushOk(hash, less, buckets, x);
      elemCnt := elemCnt + 1;
      buckets := buckets[k := [x] + buckets[k]];
    }

    method RemoveElem(k: nat, i: nat)
      requires Valid() && k < |buckets| && i < |buckets[k]|
      modifies this
      ensures Valid() && Contents() == old(Contents()) - {old(buckets[k][i])} && |buckets| == |old(buckets)|
    {
      CutOk(hash, less, buckets, k, i);
      elemCnt := elemCnt - 1;
      buckets := buckets[k := buckets[k][..i] + buckets[k][i + 1..]];
    }

    method Replace(x: E, memory: bool) returns (r: Option<E>)
      requires Valid()
      modifies this
      ensures Valid() && Lookup(less, old(Contents()), x, r)
      ensures Contents() == (if r.Some? then old(Contents()) - {r.value} else old(Contents())) + {x}
      ensures memory ==> IsBest(|buckets|, elemCnt)
    {
      BucketIdxInRange(hash, |buckets|, x);
      var k := BucketIdx(hash, |buckets|, x);
      var i := FindElem(k, x);
      r := None;
      if i.Some? {
        r := Some(buckets[k][i.value]);
        OnlyOne(hash, less, buckets, x, r.value);
        RemoveElem(k, i.value);
      }
      InsertElem(k, x);
      Rehash(memory);
    }

    method Delete(e: E, memory: bool) returns (r: Option<E>)
      requires Valid()
      modifies this
      ensures Valid() && Lookup(less, old(Contents()), e, r)
      ensures Contents() == if r.Some? then old(Contents()) - {r.value} else old(Contents())
      ensures memory && r.Some? ==> IsBest(|buckets|, elemCnt)
    {
      BucketIdxInRange(hash, |buckets|, e);
      var k := BucketIdx(hash, |buckets|, e);
      var i := FindElem(k, e);
      r := None;
      if i.Some? {
        r := Some(buckets[k][i.value]);
        RemoveElem(k, i.value);
        Rehash(memory);
      }
    }
  }

  lemma {:induction false} OnlyOne<E(!new)>(hash: E -> nat, less: (E, E) -> bool, t: seq<seq<E>>, x: E, y: E)
    requires Lawful(hash, less) && TableOk(hash, less, t) && y in Elems(t) && Same(less, y, x)
    ensures Lookup(less, Elems(t) - {y}, x, None)
  {
    ElemsUnique(hash, less, t);
    forall f | f in Elems(t) - {y} ensures !Same(less, f, x) {
      assert Same(less, x, y);
    }
  }

  ghost function AsSet<E(!new)>(s: seq<E>): set<E> { set e | e in s }

  /** The elements of the first k buckets and the first i of the next */
  ghost function Seen<E(!new)>(t: seq<seq<E>>, k: nat, i: nat): set<E>
    requires k < |t| && i <= |t[k]|
  {
    Elems(t[..k]) + AsSet(t[k][..i])
  }

  lemma {:induction false} SeenNone<E(!new)>(t: seq<seq<E>>, k: nat)
    requires k < |t|
    ensures Seen(t, k, 0) == Elems(t[..k])
  {
  }

  lemma {:induction false} SeenNext<E(!new)>(t: seq<seq<E>>, k: nat, i: nat)
    requires k < |t| && i < |t[k]|
    ensures Seen(t, k, i + 1) == Seen(t, k, i) + {t[k][i]}
  {
    assert t[k][..i + 1] == t[k][..i] + [t[k][i]];
  }

  lemma {:induction false} SeenAll<E(!new)>(t: seq<seq<E>>, k: nat)
    requires k < |t|
    ensures Seen(t, k, |t[k]|) == Elems(t[..k + 1]) == Elems(t[..k]) + AsSet(t[k])
  {
    var u := t[..k + 1];
    assert t[k][..|t[k]|] == t[k];
    forall f | f in Elems(t[..k]) ensures f in Elems(u) {
      var c, i :| 0 <= c < k && 0 <= i < |t[..k][c]| && t[..k][c][i] == f;
      assert u[c][i] == f;
    }
    forall f | f in Elems(u) && f !in AsSet(t[k]) ensures f in Elems(t[..k]) {
      var c, i :| 0 <= c < k + 1 && 0 <= i < |u[c]| && u[c][i] == f;
      assert c < k && t[..k][c][i] == f;
    }
    forall f | f in AsSet(t[k]) ensures f in Elems(u) {
      var j :| 0 <= j < |t[k]| && t[k][j] == f;
      assert u[k][j] == f;
    }
  }

  lemma {:induction false} DestroyedNext<E(!new)>(t: seq<seq<E>>, k: nat, done: seq<E>)
    requires k < |t| && AsSet(done) == Elems(t[..k]) && |done| == Total(t[..k])
    ensures AsSet(done + t[k]) == Elems(t[..k + 1]) && |done + t[k]| == Total(t[..k + 1])
  {
    SeenAll(t, k);
    assert AsSet(done + t[k]) == AsSet(done) + AsSet(t[k]);
    assert t[..k + 1][..k] == t[..k];
  }

  /** The element at position i of bucket k is unlike all that come before it. */
  lemma {:induction false} NotYetMoved<E(!new)>(hash: E -> nat, less: (E, E) -> bool, t: seq<seq<E>>, k: nat, i: nat)
    requires Lawful(hash, less) && TableOk(hash, less, t) && k < |t| && i < |t[k]|
    ensures forall f | f in Seen(t, k, i) :: !Same(less, t[k][i], f)
  {
    var e := t[k][i];
    assert BucketOk(hash, less, t[k], k, |t|) && e in t[k];
    forall f | f in Elems(t[..k]) ensures !Same(less, e, f) {
      var c, j :| 0 <= c < k && 0 <= j < |t[..k][c]| && t[..k][c][j] == f;
      assert BucketOk(hash, less, t[c], c, |t|) && f in t[c];
      assert BucketIdx(hash, |t|, f) == c && BucketIdx(hash, |t|, e) == k;
      assert Same(less, e, f) ==> hash(e) == hash(f);
    }
    forall f | f in AsSet(t[k][..i]) ensures !Same(less, e, f) {
      var j :| 0 <= j < i && t[k][..i][j] == f;
      assert !Same(less, t[k][j], t[k][i]);
    }
  }
}
