/** The hash table of 11.threads/05_mutex.c in the heap.  Each method is the critical
    section of the function it is named after. */
module FooTable {
  import opened FooRegistry

  class Foo {
    var references: int
    const id: CInt
    var next: Foo?

    constructor (id: CInt)
      ensures this.id == id && references == 1
    {
      this.id := id;
      references := 1;
      next := null;
    }
  }

  /** The objects with the hash, in the order given. */
  function Bucket(order: seq<Foo>, h: nat): seq<Foo> {
    if order == [] then []
    else (if Hash(order[0].id) == h then [order[0]] else []) + Bucket(order[1..], h)
  }

  ghost predicate AllDifferent(order: seq<Foo>) {
    forall i, j :: 0 <= i < j < |order| ==> order[i] != order[j]
  }

  /** Following the links from `start` visits exactly the chain, whose objects are among `all`. */
  ghost predicate Linked(start: Foo?, chain: seq<Foo>, all: seq<Foo>)
    requires forall k :: 0 <= k < |chain| ==> chain[k] in all
    reads all
  {
    && start == Head(chain, 0)
    && forall k :: 0 <= k < |chain| ==> chain[k] in all && chain[k].next == Head(chain, k + 1)
  }

  /** The object at a position, or null at the end. */
  ghost function Head(chain: seq<Foo>, k: nat): Foo? {
    if k < |chain| then chain[k] else null
  }

  lemma {:induction false} BucketConcat(a: seq<Foo>, b: seq<Foo>, h: nat)
    ensures Bucket(a + b, h) == Bucket(a, h) + Bucket(b, h)
  {
    hide Hash;
    if a == [] {
      assert a + b == b;
    } else {
      assert (a + b)[1..] == a[1..] + b && (a + b)[0] == a[0];
      BucketConcat(a[1..], b, h);
    }
  }

  lemma BucketCons(f: Foo, order: seq<Foo>, h: nat)
    ensures Bucket([f] + order, h) == (if Hash(f.id) == h then [f] else []) + Bucket(order, h)
  {
    assert ([f] + order)[1..] == order;
  }

  lemma {:induction false} BucketMembers(order: seq<Foo>, h: nat)
    ensures forall k :: 0 <= k < |Bucket(order, h)| ==>
              Bucket(order, h)[k] in order && Hash(Bucket(order, h)[k].id) == h
    ensures AllDifferent(order) ==> AllDifferent(Bucket(order, h))
  {
    if order == [] {
    } else {
      BucketMembers(order[1..], h);
      var rest := Bucket(order[1..], h);
      assert forall k :: 0 <= k < |rest| ==> rest[k] in order[1..] && rest[k] in order;
      if AllDifferent(order) {
        assert order[0] !in order[1..];
      }
    }
  }

  /** The chain with an object in the middle, and what unlinking it makes of it. */
  lemma BucketAround(order: seq<Foo>, i: nat, h: nat)
    requires i < |order|
    ensures var a, b := Bucket(order[..i], h), Bucket(order[i + 1..], h);
            && Bucket(order, h) == a + (if Hash(order[i].id) == h then [order[i]] else []) + b
            && Bucket(Without(order, i), h) == a + b
  {
    var f := [order[i]];
    assert order == (order[..i] + f) + order[i + 1..];
    BucketConcat(order[..i] + f, order[i + 1..], h);
    BucketConcat(order[..i], f, h);
    assert f[1..] == [];
    BucketConcat(order[..i], order[i + 1..], h);
  }

  lemma BucketElsewhere(order: seq<Foo>, i: nat, h: nat)
    requires i < |order| && Hash(order[i].id) != h
    ensures Bucket(Without(order, i), h) == Bucket(order, h)
  {
    hide Bucket, Hash;
    BucketAround(order, i, h);
    assert Bucket(order[..i], h) + [] == Bucket(order[..i], h);
  }

  /** The first object with the id in its chain is the first one among all objects. */
  lemma {:induction false} ChainSearchIsSearch(order: seq<Foo>, id: CInt, k: nat) returns (i: nat)
    requires var chain := Bucket(order, Hash(id));
             && k <= |chain|
             && (forall j :: 0 <= j < k ==> chain[j].id != id)
             && (k < |chain| ==> chain[k].id == id)
    ensures i <= |order| && Head(order, i) == Head(Bucket(order, Hash(id)), k)
    ensures (forall j :: 0 <= j < i ==> order[j].id != id) && (i < |order| ==> order[i].id == id)
  {
    hide Hash;
    i := 0;
    if order == [] {
    } else {
      var chain, rest := Bucket(order, Hash(id)), Bucket(order[1..], Hash(id));
      var here := Hash(order[0].id) == Hash(id);
      assert chain == if here then [order[0]] + rest else rest;
      if order[0].id == id {
        assert chain[0] == order[0] && k == 0;
      } else {
        assert here ==> forall j :: 0 <= j < |rest| ==> rest[j] == chain[j + 1];
        i := ChainSearchIsSearch(order[1..], id, if here then k - 1 else k);
        i := i + 1;
      }
    }
  }

  lemma LinkedAmong(start: Foo?, chain: seq<Foo>, all: seq<Foo>, all': seq<Foo>)
    requires forall k :: 0 <= k < |chain| ==> chain[k] in all && chain[k] in all'
    requires Linked(start, chain, all)
    ensures Linked(start, chain, all')
  {
  }

  lemma NewIsDifferent(f: Foo, order: seq<Foo>)
    requires AllDifferent(order) && f !in order
    ensures AllDifferent([f] + order)
  {
  }

  lemma Prepended(chain: seq<Foo>, f: Foo, all: seq<Foo>)
    requires f in all && forall k :: 0 <= k < |chain| ==> chain[k] in all
    requires f.next == Head(chain, 0) && forall k :: 0 <= k < |chain| ==> chain[k].next == Head(chain, k + 1)
    ensures Linked(f, [f] + chain, all)
  {
    var longer := [f] + chain;
    forall k | 0 <= k < |longer|
      ensures longer[k] in all && longer[k].next == Head(longer, k + 1)
    {
      assert Head(longer, k + 1) == Head(chain, k);
      if k > 0 {
        assert longer[k] == chain[k - 1];
      }
    }
  }

  /** When the object before `chain[k]` skips it, the others are linked. */
  lemma SkipsOne(chain: seq<Foo>, k: nat, start: Foo?, all: seq<Foo>)
    requires k < |chain| && forall m :: 0 <= m < |Without(chain, k)| ==> Without(chain, k)[m] in all
    requires forall m :: 0 <= m < |chain| && m != k - 1 ==> chain[m].next == Head(chain, m + 1)
    requires if k == 0 then start == Head(chain, 1) else start == chain[0] && chain[k - 1].next == Head(chain, k + 1)
    ensures Linked(start, Without(chain, k), all)
  {
    var rest := Without(chain, k);
    forall m | 0 <= m < |rest|
      ensures rest[m] in all && rest[m].next == Head(rest, m + 1)
    {
      assert rest[m] == chain[if m < k then m else m + 1];
    }
  }

  class Table {
    const buckets: array<Foo?>
    /** The live objects, newest first. */
    ghost var order: seq<Foo>

    ghost function Live(): (live: Registry<Foo>)
      reads this, order
    {
      seq(|order|, i requires 0 <= i < |order| reads this, order => Cell(order[i], order[i].id, order[i].references))
    }

    /** Every chain is the newest-first list of live objects, filtered by the hash. */
    ghost predicate Valid()
      reads this, buckets, order
    {
      && buckets.Length == HASH_NUMBER
      && AllDifferent(order)
      && forall h :: 0 <= h < HASH_NUMBER ==> LinkedAt(h)
    }

    ghost predicate LinkedAt(h: nat)
      requires h < buckets.Length
      reads this, buckets, order
    {
      BucketMembers(order, h);
      Linked(buckets[h], Bucket(order, h), order)
    }

    constructor ()
      ensures Valid() && Live() == [] && fresh(buckets)
    {
      buckets := new Foo?[HASH_NUMBER](_ => null);
      order := [];
    }

    method FooAlloc(id: CInt) returns (added: Foo)
      requires Valid()
      modifies this, buckets
      ensures Valid() && fresh(added) && added.id == id
      ensures order == [added] + old(order) && Live() == Alloc(old(Live()), added, id)
    {
      hide Bucket, Hash, AllDifferent, Newest, Where;
      var index := Hash(id);
      added := new Foo(id);
      added.next := buckets[index];
      buckets[index] := added;
      ghost var next := [added] + order;
      forall h | 0 <= h < HASH_NUMBER
        ensures forall m :: 0 <= m < |Bucket(next, h)| ==> Bucket(next, h)[m] in next
        ensures Linked(buckets[h], Bucket(next, h), next)
      {
        ghost var chain := Bucket(order, h);
        assert old(LinkedAt(h));
        BucketMembers(order, h);
        BucketMembers(next, h);
        BucketCons(added, order, h);
        assert forall k :: 0 <= k < |chain| ==> chain[k].next == Head(chain, k + 1);
        if h == index {
          Prepended(chain, added, next);
        } else {
          assert Bucket(next, h) == chain;
        }
      }
      order := next;
      assert order[1..] == old(order);
      assert forall h :: 0 <= h < HASH_NUMBER ==> LinkedAt(h);
      NewIsDifferent(added, old(order));
    }

    /** The loop that walks one chain. */
    method Search(id: CInt) returns (current: Foo?, ghost i: nat)
      requires Valid()
      ensures i == Newest(Live(), id) && current == Head(order, i)
    {
      hide Bucket, Hash, AllDifferent, Newest;
      ghost var chain := Bucket(order, Hash(id));
      ghost var k := 0;
      assert LinkedAt(Hash(id));
      current := buckets[Hash(id)];
      while current != null && current.id != id
        invariant k <= |chain| && current == Head(chain, k)
        invariant forall j :: 0 <= j < k ==> chain[j].id != id
        decreases |chain| - k
      {
        assert chain[k].next == Head(chain, k + 1);
        current := current.next;
        k := k + 1;
      }
      i := ChainSearchIsSearch(order, id, k);
      FirstIsNewest(id, i);
    }

    lemma FirstIsNewest(id: CInt, i: nat)
      requires i <= |order| && forall j :: 0 <= j < i ==> order[j].id != id
      requires i < |order| ==> order[i].id == id
      ensures i == Newest(Live(), id)
    {
      var newest := Newest(Live(), id);
      assert i < |order| ==> Live()[i].id == id;
      assert newest < |order| ==> Live()[newest].id == order[newest].id;
    }

    method FooFindAndHold(id: CInt) returns (current: Foo?)
      requires Valid()
      modifies order
      ensures Valid() && order == old(order) && Live() == Find(old(Live()), id)
      ensures current == Head(order, Newest(old(Live()), id))
    {
      hide Bucket, Hash, Newest;
      ghost var i;
      current, i := Search(id);
      if current != null {
        current.references := current.references + 1;
      }
      LinksUnchanged();
    }

    twostate lemma LinksUnchanged()
      requires old(Valid()) && order == old(order) && buckets[..] == old(buckets[..])
      requires forall f :: f in order ==> f.next == old(f.next)
      ensures Valid()
    {
      forall h | 0 <= h < HASH_NUMBER
        ensures LinkedAt(h)
      {
        assert old(LinkedAt(h));
        BucketMembers(order, h);
      }
    }

    /** How many objects precede `order[i]` in its chain. */
    ghost function Ahead(i: nat): nat
      reads this
      requires i < |order|
    {
      |Bucket(order[..i], Hash(order[i].id))|
    }

    lemma AheadInChain(i: nat)
      requires Valid() && i < |order|
      ensures var chain := Bucket(order, Hash(order[i].id));
              && AllDifferent(chain) && LinkedAt(Hash(order[i].id))
              && Ahead(i) < |chain| && chain[Ahead(i)] == order[i]
              && Bucket(Without(order, i), Hash(order[i].id)) == Without(chain, Ahead(i))
    {
      hide Bucket, Hash, Linked;
      BucketMembers(order, Hash(order[i].id));
      BucketAround(order, i, Hash(order[i].id));
    }

    /** The walk to the predecessor never runs off the chain. */
    method Predecessor(fp: Foo, ghost i: nat) returns (current: Foo)
      requires Valid() && i < |order| && order[i] == fp
      requires buckets[Hash(fp.id)] != fp
      ensures 0 < Ahead(i) <= |Bucket(order, Hash(fp.id))|
      ensures current == Bucket(order, Hash(fp.id))[Ahead(i) - 1]
    {
      hide Bucket, Hash;
      AheadInChain(i);
      ghost var chain, j := Bucket(order, Hash(fp.id)), 0;
      current := buckets[Hash(fp.id)];
      while current.next != fp
        invariant j < Ahead(i) && current == chain[j]
        decreases |chain| - j
      {
        assert chain[j].next == Head(chain, j + 1);
        current := current.next;
        j := j + 1;
      }
      assert chain[j].next == Head(chain, j + 1);
    }

    /** Lines 60-69: the object before `fp`, or the bucket, skips it. */
    method Relink(fp: Foo, ghost i: nat)
      requires Valid() && i < |order| && order[i] == fp
      modifies buckets, order
      ensures var h, k := Hash(fp.id), Ahead(i);
              var chain := Bucket(order, h);
              && k < |chain|
              && (forall m :: 0 <= m < |chain| && m != k - 1 ==> chain[m].next == Head(chain, m + 1))
              && if k == 0 then buckets[h] == Head(chain, 1)
                 else buckets[h] == chain[0] && chain[k - 1].next == Head(chain, k + 1)
      ensures forall h :: 0 <= h < HASH_NUMBER && h != Hash(fp.id) ==> LinkedAt(h)
      ensures forall f :: f in order ==> f.references == old(f.references)
    {
      hide Bucket, Hash;
      var index := Hash(fp.id);
      AheadInChain(i);
      ghost var chain := Bucket(order, index);
      BucketMembers(order, index);
      assert chain[Ahead(i)].next == Head(chain, Ahead(i) + 1);
      if buckets[index] == fp {
        assert Ahead(i) == 0;
        buckets[index] := fp.next;
      } else {
        var current := Predecessor(fp, i);
        current.next := fp.next;
      }
      forall h | 0 <= h < HASH_NUMBER && h != index
        ensures LinkedAt(h)
      {
        assert old(LinkedAt(h));
        BucketMembers(order, h);
      }
    }

    method Unlink(fp: Foo, ghost i: nat)
      requires Valid() && i < |order| && order[i] == fp
      modifies this`order, buckets, order
      ensures Valid() && order == Without(old(order), i)
      ensures forall f :: f in old(order) ==> f.references == old(f.references)
    {
      hide Bucket, Hash, Linked;
      ghost var index := Hash(fp.id);
      AheadInChain(i);
      ghost var chain, k := Bucket(order, index), Ahead(i);
      Relink(fp, i);
      ghost var next := Without(order, i);
      forall h | 0 <= h < HASH_NUMBER
        ensures forall m :: 0 <= m < |Bucket(next, h)| ==> Bucket(next, h)[m] in next
        ensures Linked(buckets[h], Bucket(next, h), next)
      {
        BucketMembers(next, h);
        BucketMembers(order, h);
        if h == index {
          assert Bucket(next, h) == Without(chain, k);
          SkipsOne(chain, k, buckets[h], next);
        } else {
          BucketElsewhere(order, i, h);
          assert Bucket(next, h) == Bucket(order, h) && LinkedAt(h);
          LinkedAmong(buckets[h], Bucket(next, h), order, next);
        }
      }
      order := next;
      assert forall h :: 0 <= h < HASH_NUMBER ==> LinkedAt(h);
    }

    /** `freed` says that the object was unlinked; the source frees it after the unlock. */
    method FooRelease(fp: Foo) returns (freed: bool)
      requires Valid() && fp in order && fp.references >= 1
      modifies this, buckets, order
      ensures Valid() && Live() == Release(old(Live()), fp)
      ensures freed <==> old(fp.references) == 1
      ensures var i := Where(old(Live()), fp);
              i < |old(order)| && order == if freed then Without(old(order), i) else old(order)
    {
      hide Bucket, Hash, Where;
      ghost var i := Where(Live(), fp);
      ghost var j :| 0 <= j < |order| && order[j] == fp;
      assert Live()[j].obj == fp;
      ghost var cell := Live()[i];
      fp.references := fp.references - 1;
      freed := fp.references == 0;
      LinksUnchanged();
      ghost var released := Live();
      assert released == old(Live())[i := cell.(refs := cell.refs - 1)];
      if freed {
        Unlink(fp, i);
        assert Live() == Without(released, i) == Without(old(Live()), i);
      }
    }
  }
}
