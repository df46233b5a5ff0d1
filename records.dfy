/** Plain JavaScript objects with string keys and string values, as built by
    `Object.fromEntries`: an ordered list of entries, one per key. */
module Records {
  import opened Wrappers

  datatype Entry = Entry(key: string, value: string)

  /** An object: its own properties in insertion order. */
  type Record = seq<Entry>

  function Keys(r: seq<Entry>): set<string> {
    if r == [] then {} else {r[0].key} + Keys(r[1..])
  }

  /** No key is listed twice. */
  predicate DistinctKeys(r: seq<Entry>) {
    r == [] || (r[0].key !in Keys(r[1..]) && DistinctKeys(r[1..]))
  }

  /** Property lookup `obj[k]`: `None` stands for `undefined`. */
  function Get(r: seq<Entry>, k: string): (v: Option<string>)
    ensures v.Some? <==> k in Keys(r)
    ensures v.Some? ==> Entry(k, v.value) in r
  {
    if r == [] then None
    else if r[0].key == k then Some(r[0].value)
    else Get(r[1..], k)
  }

  /** Property assignment `obj[k] = v`: an existing property keeps its place
      and takes the new value; a new one is added at the end. */
  function Put(r: Record, k: string, v: string): (r': Record)
    ensures Keys(r') == Keys(r) + {k}
    ensures Get(r', k) == Some(v)
    ensures DistinctKeys(r) ==> DistinctKeys(r')
  {
    if r == [] then [Entry(k, v)]
    else if r[0].key == k then
      assert ([Entry(k, v)] + r[1..])[1..] == r[1..];
      [Entry(k, v)] + r[1..]
    else
      var tail := Put(r[1..], k, v);
      assert ([r[0]] + tail)[1..] == tail;
      [r[0]] + tail
  }

  /** Assigning one key leaves every other key as it was. */
  lemma {:induction false} PutOther(r: Record, k: string, v: string, k': string)
    requires k' != k
    ensures Get(Put(r, k, v), k') == Get(r, k')
  {
    if r != [] && r[0].key != k {
      PutOther(r[1..], k, v, k');
    }
  }

  /** The value of the last entry for key `k`, if any: the reference meaning
      of "a later entry overwrites an earlier one". */
  function LastFor(es: seq<Entry>, k: string): Option<string> {
    if es == [] then None
    else if es[|es| - 1].key == k then Some(es[|es| - 1].value)
    else LastFor(es[..|es| - 1], k)
  }

  /** `Object.fromEntries`: the entries assigned one after another. Each key
      appears once, with the value of its last entry. */
  function FromEntries(es: seq<Entry>): (r: Record)
    ensures DistinctKeys(r)
    ensures Keys(r) == Keys(es)
    ensures forall k :: Get(r, k) == LastFor(es, k)
  {
    if es == [] then []
    else
      var init := es[..|es| - 1];
      KeysAppend(init, [es[|es| - 1]]);
      assert init + [es[|es| - 1]] == es;
      forall k | k != es[|es| - 1].key
        ensures Get(Put(FromEntries(init), es[|es| - 1].key, es[|es| - 1].value), k) == LastFor(es, k)
      {
        PutOther(FromEntries(init), es[|es| - 1].key, es[|es| - 1].value, k);
      }
      Put(FromEntries(init), es[|es| - 1].key, es[|es| - 1].value)
  }

  /** Assigning a key the object already has keeps every property in its
      place: the same keys in the same order, only the value changes. */
  lemma {:induction false} PutExisting(r: Record, k: string, v: string)
    requires k in Keys(r)
    ensures |Put(r, k, v)| == |r|
    ensures forall j :: 0 <= j < |r| ==> Put(r, k, v)[j].key == r[j].key
  {
    if r[0].key != k {
      PutExisting(r[1..], k, v);
      assert Put(r, k, v) == [r[0]] + Put(r[1..], k, v);
    }
  }

  /** Entries whose keys are already distinct come out as they went in. */
  lemma {:induction false} FromEntriesDistinct(es: seq<Entry>)
    requires DistinctKeys(es)
    ensures FromEntries(es) == es
  {
    if es != [] {
      var init := es[..|es| - 1];
      var last := es[|es| - 1];
      assert init + [last] == es;
      DistinctAppend(init, last);
      FromEntriesDistinct(init);
      PutNew(init, last.key, last.value);
      assert init + [last] == es;
    }
  }

  /** Assigning a key the object does not have appends it. */
  lemma {:induction false} PutNew(r: Record, k: string, v: string)
    requires k !in Keys(r)
    ensures Put(r, k, v) == r + [Entry(k, v)]
  {
    if r != [] {
      assert r[0].key != k && k !in Keys(r[1..]);
      PutNew(r[1..], k, v);
      assert Put(r, k, v) == [r[0]] + Put(r[1..], k, v);
      assert [r[0]] + (r[1..] + [Entry(k, v)]) == r + [Entry(k, v)];
    }
  }

  lemma {:induction false} KeysAppend(a: seq<Entry>, b: seq<Entry>)
    ensures Keys(a + b) == Keys(a) + Keys(b)
  {
    if a != [] {
      KeysAppend(a[1..], b);
      assert (a + b)[1..] == a[1..] + b;
    } else {
      assert a + b == b;
    }
  }

  /** A list with one more entry at the end has distinct keys exactly when
      the list had them and the new key is not among them. */
  lemma {:induction false} DistinctAppend(a: seq<Entry>, e: Entry)
    ensures DistinctKeys(a + [e]) <==> DistinctKeys(a) && e.key !in Keys(a)
  {
    if a != [] {
      assert (a + [e])[1..] == a[1..] + [e];
      DistinctAppend(a[1..], e);
      KeysAppend(a[1..], [e]);
    }
  }
}
