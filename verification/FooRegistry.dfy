/** What the reference-counted hash table of 11.threads/05_mutex.c keeps: the live
    objects, newest first, with their ids and reference counts. */
module FooRegistry {
  const HASH_NUMBER := 29
  const ULONG_SIZE := 0x1_0000_0000_0000_0000

  type CInt = x: int | -0x8000_0000 <= x < 0x8000_0000

  /** HASH converts a negative id to unsigned long first. */
  function Hash(id: CInt): (h: nat)
    ensures h < HASH_NUMBER
  {
    (if id < 0 then id + ULONG_SIZE else id) % HASH_NUMBER
  }

  /** 2^64 leaves 24 when divided by 29, so a negative id does not share the bucket of
      its remainder. */
  lemma HashOfNegative(id: CInt)
    requires id < 0
    ensures Hash(id) == (id + 24) % HASH_NUMBER != id % HASH_NUMBER
  {
    assert ULONG_SIZE == 636094623231363848 * HASH_NUMBER + 24;
  }

  lemma SameRemainder(x: int, y: int)
    ensures x % 29 == y % 29 <==> (x - y) % 29 == 0
  {
    var q, r := x / 29 - y / 29, x % 29 - y % 29;
    assert x - y == 29 * q + r && -29 < r < 29;
  }

  /** Two ids of one sign share a bucket exactly if they differ by a multiple of 29; if
      just the second is negative, exactly if they differ by 24 more than one. */
  lemma SharesBucketExactly(a: CInt, b: CInt)
    ensures (a < 0 <==> b < 0) ==> (Hash(a) == Hash(b) <==> (a - b) % 29 == 0)
    ensures a >= 0 > b ==> (Hash(a) == Hash(b) <==> (a - b - 24) % 29 == 0)
  {
    if a < 0 {
      HashOfNegative(a);
    }
    if b < 0 {
      HashOfNegative(b);
    }
    hide Hash;
    SameRemainder(if a < 0 then a + 24 else a, if b < 0 then b + 24 else b);
  }

  datatype Cell<O> = Cell(obj: O, id: CInt, refs: int)

  type Registry<O> = seq<Cell<O>>

  ghost predicate Distinct<O>(live: Registry<O>) {
    forall i, j :: 0 <= i < j < |live| ==> live[i].obj != live[j].obj
  }

  ghost predicate Has<O>(live: Registry<O>, o: O) {
    exists i :: 0 <= i < |live| && live[i].obj == o
  }

  /** The position of the newest object with the id, or the length if there is none. */
  function Newest<O>(live: Registry<O>, id: CInt): (i: nat)
    ensures i <= |live|
    ensures i < |live| ==> live[i].id == id
    ensures forall j :: 0 <= j < i ==> live[j].id != id
  {
    if live == [] || live[0].id == id then 0 else 1 + Newest(live[1..], id)
  }

  /** The position of an object. */
  function Where<O(==)>(live: Registry<O>, o: O): (i: nat)
    ensures i <= |live|
    ensures i < |live| ==> live[i].obj == o
    ensures forall j :: 0 <= j < i ==> live[j].obj != o
  {
    if live == [] || live[0].obj == o then 0 else 1 + Where(live[1..], o)
  }

  // ----- the three operations -----

  function Alloc<O>(live: Registry<O>, o: O, id: CInt): Registry<O> {
    [Cell(o, id, 1)] + live
  }

  function Find<O>(live: Registry<O>, id: CInt): Registry<O> {
    var i := Newest(live, id);
    if i == |live| then live else live[i := live[i].(refs := live[i].refs + 1)]
  }

  function Without<T>(s: seq<T>, i: nat): (r: seq<T>)
    requires i < |s|
    ensures |r| == |s| - 1
  {
    s[..i] + s[i + 1..]
  }

  function Release<O(==)>(live: Registry<O>, o: O): Registry<O> {
    var i := Where(live, o);
    if i == |live| then live
    else if live[i].refs == 1 then Without(live, i)
    else live[i := live[i].(refs := live[i].refs - 1)]
  }

  /** Releasing what was just allocated or found undoes the call. */
  lemma ReleaseUndoes<O>(live: Registry<O>, o: O, id: CInt)
    requires Distinct(live)
    ensures Release(Alloc(live, o, id), o) == live
    ensures var i := Newest(live, id);
            i < |live| && live[i].refs != 0 ==> Release(Find(live, id), live[i].obj) == live
  {
    assert Alloc(live, o, id)[1..] == live;
    var i := Newest(live, id);
    if i < |live| && live[i].refs != 0 {
      var found := Find(live, id);
      assert found[i].obj == live[i].obj;
      var w := Where(found, live[i].obj);
      assert w <= i && found[w].obj == live[w].obj;
      assert found[i := live[i]] == live;
    }
  }
}
