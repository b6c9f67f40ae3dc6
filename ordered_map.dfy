/**
 * An insertion-ordered map from string keys to integers: the model of a
 * JavaScript `Map<string, number>` and of a plain `Record<string, number>`
 * object, both of which iterate in insertion order. `Set` overwrites the value
 * of an existing key where it stands and appends a new key at the end;
 * `Remove` is `delete`, which keeps the order of the other keys.
 */
module OrderedMap {
  import opened Common

  datatype Entry = Entry(key: string, value: int)

  function Keys(m: seq<Entry>): seq<string>
  {
    seq(|m|, i requires 0 <= i < |m| => m[i].key)
  }

  predicate DistinctKeys(m: seq<Entry>)
  {
    forall i, j :: 0 <= i < j < |m| ==> m[i].key != m[j].key
  }

  lemma KeysConcat(a: seq<Entry>, b: seq<Entry>)
    ensures Keys(a + b) == Keys(a) + Keys(b)
  {
  }

  /** `m.get(k)` */
  function Get(m: seq<Entry>, k: string): (r: Option<int>)
    ensures r.Some? <==> k in Keys(m)
    ensures r.Some? ==> Entry(k, r.value) in m
    ensures DistinctKeys(m) ==> forall i :: 0 <= i < |m| && m[i].key == k ==> r == Some(m[i].value)
    decreases |m|
  {
    if m == [] then None
    else if m[0].key == k then
      assert Keys(m)[0] == k;
      Some(m[0].value)
    else
      assert m == [m[0]] + m[1..];
      KeysConcat([m[0]], m[1..]);
      Get(m[1..], k)
  }

  /** `m.get(k) ?? 0` */
  function GetOr0(m: seq<Entry>, k: string): int
  {
    match Get(m, k)
    case Some(v) => v
    case None => 0
  }

  /** Lookups and keys of a map with one more entry in front. */
  lemma ConsFacts(e: Entry, m: seq<Entry>)
    ensures forall q :: Get([e] + m, q) == if e.key == q then Some(e.value) else Get(m, q)
    ensures forall q :: q in Keys([e] + m) <==> q == e.key || q in Keys(m)
  {
    assert ([e] + m)[1..] == m;
    KeysConcat([e], m);
    assert Keys([e]) == [e.key];
  }

  /** `m.set(k, v)` */
  function Set(m: seq<Entry>, k: string, v: int): (r: seq<Entry>)
    ensures |r| == if k in Keys(m) then |m| else |m| + 1
    ensures Get(r, k) == Some(v)
    ensures forall q :: q != k ==> Get(r, q) == Get(m, q)
    decreases |m|
  {
    if m == [] then [Entry(k, v)]
    else
      var e := m[0];
      var tail := m[1..];
      assert m == [e] + tail;
      ConsFacts(e, tail);
      if e.key == k then
        ConsFacts(Entry(k, v), tail);
        [Entry(k, v)] + tail
      else
        var rest := Set(tail, k, v);
        ConsFacts(e, rest);
        [e] + rest
  }

  /** An existing key keeps its place; a new key goes at the end. */
  lemma {:induction false} SetKeys(m: seq<Entry>, k: string, v: int)
    ensures Keys(Set(m, k, v)) == if k in Keys(m) then Keys(m) else Keys(m) + [k]
    decreases |m|
  {
    if m != [] {
      assert m == [m[0]] + m[1..];
      KeysConcat([m[0]], m[1..]);
      if m[0].key != k {
        SetKeys(m[1..], k, v);
        KeysConcat([m[0]], Set(m[1..], k, v));
      } else {
        KeysConcat([Entry(k, v)], m[1..]);
      }
    }
  }

  /** The keys after `Set`: the old keys and `k`. */
  lemma SetKeysMembers(m: seq<Entry>, k: string, v: int)
    ensures forall q :: q in Keys(Set(m, k, v)) <==> q in Keys(m) || q == k
  {
    SetKeys(m, k, v);
  }

  lemma SetDistinct(m: seq<Entry>, k: string, v: int)
    requires DistinctKeys(m)
    ensures DistinctKeys(Set(m, k, v))
  {
    var r := Set(m, k, v);
    SetKeys(m, k, v);
    forall i, j | 0 <= i < j < |r| ensures r[i].key != r[j].key {
      assert Keys(r)[i] == r[i].key && Keys(r)[j] == r[j].key;
      if j < |m| {
        assert Keys(m)[i] == m[i].key && Keys(m)[j] == m[j].key;
      } else {
        assert Keys(m)[i] == m[i].key;
      }
    }
  }

  /** `delete m[k]` */
  function Remove(m: seq<Entry>, k: string): (r: seq<Entry>)
    ensures k !in Keys(r)
    ensures forall q :: q != k ==> Get(r, q) == Get(m, q)
    ensures forall e :: e in r ==> e in m
    ensures DistinctKeys(m) ==> DistinctKeys(r)
    ensures k !in Keys(m) ==> r == m
    decreases |m|
  {
    if m == [] then []
    else
      var rest := Remove(m[1..], k);
      assert m == [m[0]] + m[1..];
      KeysConcat([m[0]], m[1..]);
      if m[0].key == k then
        assert Keys(m)[0] == k;
        rest
      else
        KeysConcat([m[0]], rest);
        assert DistinctKeys(m) ==> forall j :: 0 <= j < |rest| ==> rest[j].key != m[0].key by {
          if DistinctKeys(m) {
            forall j | 0 <= j < |rest| ensures rest[j].key != m[0].key {
              assert rest[j] in m[1..];
              var t :| 0 <= t < |m[1..]| && m[1..][t] == rest[j];
              assert m[t + 1] == rest[j];
            }
          }
        }
        [m[0]] + rest
  }

  /** Deleting the key of an entry that no other entry shares removes exactly that entry. */
  lemma {:induction false} RemoveMiddle(a: seq<Entry>, e: Entry, b: seq<Entry>)
    requires e.key !in Keys(a) && e.key !in Keys(b)
    ensures Remove(a + [e] + b, e.key) == a + b
    decreases |a|
  {
    if a == [] {
      assert a + [e] + b == [e] + b;
      assert ([e] + b)[1..] == b;
    } else {
      KeysConcat([a[0]], a[1..]);
      assert a == [a[0]] + a[1..];
      assert Keys(a)[0] == a[0].key;
      RemoveMiddle(a[1..], e, b);
      assert (a + [e] + b)[1..] == a[1..] + [e] + b;
      assert (a + b)[1..] == a[1..] + b;
    }
  }

  /** No key of a map without repeated keys occurs before or after its own entry. */
  lemma DistinctKeysSplit(m: seq<Entry>, i: int)
    requires DistinctKeys(m) && 0 <= i < |m|
    ensures m[i].key !in Keys(m[..i]) && m[i].key !in Keys(m[i + 1..])
  {
  }

  /** Keys are found exactly at their entries. */
  lemma KeysMembers(m: seq<Entry>, k: string)
    ensures k in Keys(m) <==> exists e :: e in m && e.key == k
  {
    if k in Keys(m) {
      var t :| 0 <= t < |m| && Keys(m)[t] == k;
      assert m[t] in m;
    }
    if exists e :: e in m && e.key == k {
      var e :| e in m && e.key == k;
      var t :| 0 <= t < |m| && m[t] == e;
      assert Keys(m)[t] == k;
    }
  }

  /** The sum of all values, `Array.from(m.values())` added up. */
  function SumValues(m: seq<Entry>): int
    decreases |m|
  {
    if m == [] then 0 else m[0].value + SumValues(m[1..])
  }

  /** Overwriting one key changes the sum of values by the difference at that key. */
  lemma {:induction false} SumValuesSet(m: seq<Entry>, k: string, v: int)
    requires DistinctKeys(m)
    ensures SumValues(Set(m, k, v)) == SumValues(m) - GetOr0(m, k) + v
    decreases |m|
  {
    if m != [] {
      assert m == [m[0]] + m[1..];
      if m[0].key != k {
        SumValuesSet(m[1..], k, v);
        assert Set(m, k, v)[1..] == Set(m[1..], k, v);
      } else {
        KeysConcat([m[0]], m[1..]);
        assert Get(m[1..], k).None?;
        assert Set(m, k, v)[1..] == m[1..];
      }
    }
  }
}
