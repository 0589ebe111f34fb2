/** A JavaScript object used as a dictionary with string keys: its keys keep
    the order in which they were first assigned, and assigning an existing
    key replaces the value in place. (None of the keys in this model looks
    like an array index, the one case where JavaScript orders keys
    differently.) */
module Assoc {
  import opened Wrappers

  datatype Pair<V> = Pair(key: string, val: V)

  type Table<V> = seq<Pair<V>>

  function Keys<V>(t: Table<V>): (ks: seq<string>)
    ensures |ks| == |t| && forall i :: 0 <= i < |t| ==> ks[i] == t[i].key
  {
    if |t| == 0 then [] else [t[0].key] + Keys(t[1..])
  }

  predicate UniqueKeys<V>(t: Table<V>) {
    forall i, j :: 0 <= i < j < |t| ==> t[i].key != t[j].key
  }

  /** The position of key `k`, if it has one. */
  function Find<V>(t: Table<V>, k: string): (r: Option<nat>)
    ensures r.Some? ==> r.value < |t| && t[r.value].key == k
    ensures r.Some? ==> forall j :: 0 <= j < r.value ==> t[j].key != k
    ensures r.None? <==> k !in Keys(t)
  {
    if |t| == 0 then None
    else if t[0].key == k then Some(0)
    else
      assert Keys(t) == [t[0].key] + Keys(t[1..]);
      match Find(t[1..], k)
      case None => None
      case Some(i) => Some(i + 1)
  }

  /** `obj[k]`, `undefined` as `None`. */
  function Get<V>(t: Table<V>, k: string): Option<V> {
    match Find(t, k)
    case None => None
    case Some(i) => Some(t[i].val)
  }

  /** `obj[k] = v`: a new key goes at the end; an existing one keeps its
      place and takes the new value. */
  function Put<V>(t: Table<V>, k: string, v: V): (r: Table<V>)
    ensures Find(t, k).Some? ==> |r| == |t| && r == t[Find(t, k).value := Pair(k, v)]
    ensures Find(t, k).None? ==> r == t + [Pair(k, v)]
  {
    match Find(t, k)
    case None => t + [Pair(k, v)]
    case Some(i) => t[i := Pair(k, v)]
  }

  lemma {:induction false} PutGet<V>(t: Table<V>, k: string, v: V, k': string)
    requires UniqueKeys(t)
    ensures UniqueKeys(Put(t, k, v))
    ensures Get(Put(t, k, v), k') == if k' == k then Some(v) else Get(t, k')
  {
    var r := Put(t, k, v);
    match Find(t, k)
    case None =>
      assert Keys(r) == Keys(t) + [k];
      FindUnique(r, |t|);
      if k' != k {
        FindPrefix(t, [Pair(k, v)], k');
      }
    case Some(i) =>
      assert Keys(r) == Keys(t);
      FindUnique(r, i);
      if k' != k {
        match Find(t, k')
        case None =>
        case Some(j) => FindUnique(r, j);
      }
  }

  lemma {:induction false} FindUnique<V>(t: Table<V>, i: nat)
    requires UniqueKeys(t) && i < |t|
    ensures Find(t, t[i].key) == Some(i)
  {
    var r := Find(t, t[i].key);
    assert t[i].key in Keys(t);
    assert r.Some?;
  }

  lemma {:induction false} FindPrefix<V>(t: Table<V>, u: Table<V>, k: string)
    requires k !in Keys(u)
    ensures Find(t + u, k) == Find(t, k)
  {
    if |t| > 0 {
      assert (t + u)[1..] == t[1..] + u;
      FindPrefix(t[1..], u, k);
    } else {
      assert t + u == u;
    }
  }

  /** The value the last pair with key `k` in `ps` assigns, if any. */
  function LastValue<V>(ps: seq<Pair<V>>, k: string): Option<V> {
    if |ps| == 0 then None
    else if ps[|ps| - 1].key == k then Some(ps[|ps| - 1].val)
    else LastValue(ps[..|ps| - 1], k)
  }

  /** The assignments `obj[p.key] = p.val` for each `p` of `ps`, in order. */
  function PutAll<V>(t: Table<V>, ps: seq<Pair<V>>): Table<V> {
    if |ps| == 0 then t
    else Put(PutAll(t, ps[..|ps| - 1]), ps[|ps| - 1].key, ps[|ps| - 1].val)
  }

  /** One more assignment at the end of a run. */
  lemma PutAllSnoc<V>(t: Table<V>, ps: seq<Pair<V>>, p: Pair<V>)
    ensures PutAll(t, ps + [p]) == Put(PutAll(t, ps), p.key, p.val)
  {
    assert (ps + [p])[..|ps|] == ps;
  }

  /** Two runs of assignments, one after the other. */
  lemma {:induction false} PutAllAppend<V>(t: Table<V>, a: seq<Pair<V>>, b: seq<Pair<V>>)
    ensures PutAll(t, a + b) == PutAll(PutAll(t, a), b)
  {
    if |b| == 0 {
      assert a + b == a;
    } else {
      var init := b[..|b| - 1];
      assert (a + b)[..|a + b| - 1] == a + init;
      PutAllAppend(t, a, init);
    }
  }

  /** A run of assignments is last-write-wins. */
  lemma {:induction false} PutAllGet<V>(t: Table<V>, ps: seq<Pair<V>>, k: string)
    requires UniqueKeys(t)
    ensures UniqueKeys(PutAll(t, ps))
    ensures Get(PutAll(t, ps), k) == if LastValue(ps, k).Some? then LastValue(ps, k) else Get(t, k)
  {
    if |ps| > 0 {
      var init := ps[..|ps| - 1];
      PutAllGet(t, init, k);
      PutGet(PutAll(t, init), ps[|ps| - 1].key, ps[|ps| - 1].val, k);
    }
  }

  /** `keys` with every repeat after the first dropped. */
  function Dedup(ks: seq<string>): (r: seq<string>)
    ensures |r| <= |ks|
  {
    if |ks| == 0 then []
    else
      var init := Dedup(ks[..|ks| - 1]);
      if ks[|ks| - 1] in init then init else init + [ks[|ks| - 1]]
  }

  /** `_.uniq` keeps every key once: the same members, none twice. */
  lemma {:induction false} DedupMembers(ks: seq<string>)
    ensures forall s :: s in Dedup(ks) <==> s in ks
    ensures forall i, j :: 0 <= i < j < |Dedup(ks)| ==> Dedup(ks)[i] != Dedup(ks)[j]
  {
    if |ks| > 0 {
      var init := ks[..|ks| - 1];
      DedupMembers(init);
      assert forall s :: s in ks <==> s in init || s == ks[|ks| - 1];
    }
  }

  /** The keys of a table built by assignments are ordered by their FIRST
      assignment: re-assigning a key does not move it. */
  lemma {:induction false} PutAllKeys<V>(ps: seq<Pair<V>>)
    ensures Keys(PutAll([], ps)) == Dedup(Keys(ps))
  {
    if |ps| > 0 {
      var init := ps[..|ps| - 1];
      PutAllKeys(init);
      assert Keys(ps)[..|ps| - 1] == Keys(init);
      PutKeys(PutAll([], init), ps[|ps| - 1].key, ps[|ps| - 1].val);
    }
  }

  /** `obj[k] = v` adds `k` at the end of the keys if it is new, and leaves
      the keys as they are otherwise. */
  lemma PutKeys<V>(t: Table<V>, k: string, v: V)
    ensures Keys(Put(t, k, v)) == if k in Keys(t) then Keys(t) else Keys(t) + [k]
  {
    if k in Keys(t) {
      assert Keys(Put(t, k, v)) == Keys(t);
    } else {
      assert Keys(Put(t, k, v)) == Keys(t) + [k];
    }
  }
}
