/** The part of PHP's value model that the core relies on: null, scalars and
    the ordered array (an ordered map from int or string keys to values),
    together with the array built-ins the core calls (`$a[k] = v`, `$a[] = v`,
    `array_replace`, `implode`) and PHP's truthiness test. */
module Php {

  datatype Option<T> = None | Some(value: T)

  /** A PHP array key. */
  datatype Key = IntKey(i: int) | StrKey(s: string)

  /** A PHP value. `Arr` holds the entries of an array in iteration order. */
  datatype Value =
    | Null
    | Bool(b: bool)
    | Int(i: int)
    | Float(r: real)
    | Str(s: string)
    | Arr(entries: seq<(Key, Value)>)

  type Entries = seq<(Key, Value)>

  function Keys(es: Entries): seq<Key>
  {
    seq(|es|, i requires 0 <= i < |es| => es[i].0)
  }

  ghost predicate Distinct<T>(s: seq<T>)
  {
    forall i, j :: 0 <= i < j < |s| ==> s[i] != s[j]
  }

  /** What every PHP array satisfies: no key occurs twice. */
  ghost predicate UniqueKeys(es: Entries)
  {
    Distinct(Keys(es))
  }

  /** The entries of an array; PHP treats an unset (null) property written
      with `$p[k] = v` or `$p[] = v` as an empty array. */
  function EntriesOf(v: Value): Entries
  {
    if v.Arr? then v.entries else []
  }

  /** `$a[k]` when it is set, and `None` otherwise. */
  function Lookup(es: Entries, k: Key): Option<Value>
  {
    if es == [] then None
    else if es[0].0 == k then Some(es[0].1)
    else Lookup(es[1..], k)
  }

  /** `$a[k] = v`: an existing key keeps its position, a new key goes last. */
  function Assign(es: Entries, k: Key, v: Value): Entries
  {
    if es == [] then [(k, v)]
    else if es[0].0 == k then [(k, v)] + es[1..]
    else [es[0]] + Assign(es[1..], k, v)
  }

  /** `array_replace($base, $over)`: every entry of `$over` is assigned onto
      `$base` in order. */
  function Replace(base: Entries, over: Entries): Entries
    decreases |over|
  {
    if over == [] then base
    else Replace(Assign(base, over[0].0, over[0].1), over[1..])
  }

  /** The key `$a[] = v` uses: one more than the largest integer key, and 0
      when there is no non-negative integer key. */
  function NextIndex(es: Entries): int
  {
    if es == [] then 0
    else
      var rest := NextIndex(es[1..]);
      match es[0].0
      case IntKey(i) => if i + 1 > rest then i + 1 else rest
      case StrKey(_) => rest
  }

  /** `$a[] = v`. */
  function Push(es: Entries, v: Value): Entries
  {
    es + [(IntKey(NextIndex(es)), v)]
  }

  /** The list `[v0, v1, ...]`, keyed 0, 1, ... */
  function List(vs: seq<Value>): Entries
  {
    seq(|vs|, i requires 0 <= i < |vs| => (IntKey(i), vs[i]))
  }

  /** `(bool) $v`, the test `if ($v)` makes. */
  predicate Truthy(v: Value)
  {
    match v
    case Null => false
    case Bool(b) => b
    case Int(i) => i != 0
    case Float(r) => r != 0.0
    case Str(s) => s != "" && s != "0"
    case Arr(es) => es != []
  }

  /** `implode($sep, $parts)`. */
  function Join(parts: seq<string>, sep: string): string
    decreases |parts|
  {
    if |parts| == 0 then ""
    else if |parts| == 1 then parts[0]
    else Join(parts[..|parts| - 1], sep) + sep + parts[|parts| - 1]
  }

  /** The summed length of the parts. */
  function TotalLength(parts: seq<string>): nat
    decreases |parts|
  {
    if parts == [] then 0 else TotalLength(parts[..|parts| - 1]) + |parts[|parts| - 1]|
  }

  // ---------------------------------------------------------------------
  // Properties of the built-ins

  lemma KeysConcat(a: Entries, b: Entries)
    ensures Keys(a + b) == Keys(a) + Keys(b)
  {
  }

  lemma KeysCons(es: Entries)
    requires es != []
    ensures Keys(es) == [es[0].0] + Keys(es[1..])
    ensures forall k :: k in Keys(es) <==> k == es[0].0 || k in Keys(es[1..])
  {
    assert Keys(es) == [es[0].0] + Keys(es[1..]);
  }

  lemma {:induction false} LookupFound(es: Entries, k: Key)
    ensures Lookup(es, k).Some? <==> k in Keys(es)
  {
    if es != [] {
      KeysCons(es);
      LookupFound(es[1..], k);
    }
  }

  /** A lookup in two arrays laid end to end finds the first one's entry
      when it has the key. */
  lemma {:induction false} LookupConcat(a: Entries, b: Entries, k: Key)
    ensures Lookup(a + b, k) == if Lookup(a, k).Some? then Lookup(a, k) else Lookup(b, k)
    decreases |a|
  {
    if a == [] {
      assert a + b == b;
    } else {
      assert (a + b)[1..] == a[1..] + b;
      LookupConcat(a[1..], b, k);
    }
  }

  /** A one-entry array holds its own key and no other. */
  lemma LookupSingle(k0: Key, v: Value, k: Key)
    ensures Lookup([(k0, v)], k) == if k0 == k then Some(v) else None
  {
    assert [(k0, v)][1..] == [];
  }

  /** Assigning a key the array does not have appends the entry. */
  lemma {:induction false} AssignFresh(es: Entries, k: Key, v: Value)
    requires k !in Keys(es)
    ensures Assign(es, k, v) == es + [(k, v)]
    decreases |es|
  {
    if es != [] {
      KeysCons(es);
      AssignFresh(es[1..], k, v);
      assert es == [es[0]] + es[1..];
    }
  }

  /** `$a[k] = v` keeps the key order and appends a new key last. */
  lemma {:induction false} AssignKeys(es: Entries, k: Key, v: Value)
    ensures Keys(Assign(es, k, v)) == if k in Keys(es) then Keys(es) else Keys(es) + [k]
  {
    if es == [] {
      assert Keys([(k, v)]) == [k];
    } else {
      KeysCons(es);
      var a := Assign(es, k, v);
      KeysCons(a);
      if es[0].0 == k {
        assert a[1..] == es[1..];
      } else {
        AssignKeys(es[1..], k, v);
        assert a[1..] == Assign(es[1..], k, v);
      }
    }
  }

  /** `$a[k] = v` sets `k` and leaves every other key's value alone. */
  lemma {:induction false} AssignLookup(es: Entries, k: Key, v: Value)
    ensures forall k' :: Lookup(Assign(es, k, v), k') == if k' == k then Some(v) else Lookup(es, k')
  {
    if es == [] {
      assert [(k, v)][1..] == [];
    } else if es[0].0 == k {
      assert Assign(es, k, v)[1..] == es[1..];
    } else {
      AssignLookup(es[1..], k, v);
      assert Assign(es, k, v)[1..] == Assign(es[1..], k, v);
    }
  }

  /** `$a[k] = v` keeps keys unique. */
  lemma AssignUnique(es: Entries, k: Key, v: Value)
    requires UniqueKeys(es)
    ensures UniqueKeys(Assign(es, k, v))
  {
    AssignKeys(es, k, v);
    if k !in Keys(es) {
      var ks := Keys(es) + [k];
      forall i, j | 0 <= i < j < |ks| ensures ks[i] != ks[j] {
        if j == |ks| - 1 {
          assert ks[i] == Keys(es)[i];
        }
      }
    }
  }

  /** `$a[k] = v` sets `k`, leaves every other key's value alone, keeps the
      key order, appends a new key last and keeps keys unique. */
  lemma AssignSpec(es: Entries, k: Key, v: Value)
    ensures Keys(Assign(es, k, v)) == if k in Keys(es) then Keys(es) else Keys(es) + [k]
    ensures forall k' :: Lookup(Assign(es, k, v), k') == if k' == k then Some(v) else Lookup(es, k')
    ensures UniqueKeys(es) ==> UniqueKeys(Assign(es, k, v))
  {
    AssignKeys(es, k, v);
    AssignLookup(es, k, v);
    if UniqueKeys(es) {
      AssignUnique(es, k, v);
    }
  }

  /** Under `array_replace`, a key of `$over` takes `$over`'s value and every
      other key keeps `$base`'s. */
  lemma {:induction false} ReplaceLookup(base: Entries, over: Entries)
    requires UniqueKeys(over)
    ensures forall k :: (Lookup(Replace(base, over), k) ==
                         if k in Keys(over) then Lookup(over, k) else Lookup(base, k))
    decreases |over|
  {
    if over != [] {
      HeadFresh(over);
      KeysCons(over);
      AssignLookup(base, over[0].0, over[0].1);
      ReplaceLookup(Assign(base, over[0].0, over[0].1), over[1..]);
    }
  }

  /** Under `array_replace`, `$base`'s keys keep their positions at the
      front, and the keys are exactly those of either array. */
  lemma {:induction false} ReplaceKeys(base: Entries, over: Entries)
    ensures |Keys(base)| <= |Keys(Replace(base, over))|
    ensures Keys(Replace(base, over))[..|Keys(base)|] == Keys(base)
    ensures forall k :: k in Keys(Replace(base, over)) <==> k in Keys(base) || k in Keys(over)
    decreases |over|
  {
    if over != [] {
      var next := Assign(base, over[0].0, over[0].1);
      KeysCons(over);
      AssignKeys(base, over[0].0, over[0].1);
      ReplaceKeys(next, over[1..]);
      var r := Keys(Replace(base, over));
      assert r[..|Keys(base)|] == r[..|Keys(next)|][..|Keys(base)|];
    }
  }

  /** `array_replace` keeps keys unique. */
  lemma {:induction false} ReplaceUnique(base: Entries, over: Entries)
    requires UniqueKeys(base)
    ensures UniqueKeys(Replace(base, over))
    decreases |over|
  {
    if over != [] {
      AssignUnique(base, over[0].0, over[0].1);
      ReplaceUnique(Assign(base, over[0].0, over[0].1), over[1..]);
    }
  }

  /** `array_replace($base, $over)`: a key of `$over` takes `$over`'s value,
      every other key keeps `$base`'s; `$base`'s keys keep their positions at
      the front, and no key appears that is in neither array. */
  lemma ReplaceSpec(base: Entries, over: Entries)
    requires UniqueKeys(over)
    ensures forall k :: (Lookup(Replace(base, over), k) ==
                         if k in Keys(over) then Lookup(over, k) else Lookup(base, k))
    ensures |Keys(base)| <= |Keys(Replace(base, over))|
    ensures Keys(Replace(base, over))[..|Keys(base)|] == Keys(base)
    ensures forall k :: k in Keys(Replace(base, over)) <==> k in Keys(base) || k in Keys(over)
    ensures UniqueKeys(base) ==> UniqueKeys(Replace(base, over))
  {
    ReplaceLookup(base, over);
    ReplaceKeys(base, over);
    if UniqueKeys(base) {
      ReplaceUnique(base, over);
    }
  }

  /** In a duplicate-free array the first key does not recur, and the rest
      is duplicate-free too. */
  lemma HeadFresh(es: Entries)
    requires es != [] && UniqueKeys(es)
    ensures es[0].0 !in Keys(es[1..])
    ensures UniqueKeys(es[1..])
  {
    var tail := Keys(es[1..]);
    assert tail == Keys(es)[1..];
    forall j | 0 <= j < |tail| ensures tail[j] != es[0].0 {
      assert Keys(es)[0] != Keys(es)[j + 1];
    }
  }

  /** `$a[] = v` never reuses a key: every integer key is below NextIndex. */
  lemma {:induction false} NextIndexAbove(es: Entries)
    ensures NextIndex(es) >= 0
    ensures forall i :: 0 <= i < |es| && es[i].0.IntKey? ==> es[i].0.i < NextIndex(es)
  {
    if es != [] {
      NextIndexAbove(es[1..]);
      forall i | 1 <= i < |es| && es[i].0.IntKey? ensures es[i].0.i < NextIndex(es) {
        assert es[i] == es[1..][i - 1];
      }
    }
  }

  /** `$a[] = v` keeps the earlier entries, in order, adds exactly one entry
      at the end, and keeps keys unique. */
  lemma PushSpec(es: Entries, v: Value)
    ensures |Push(es, v)| == |es| + 1
    ensures Push(es, v)[..|es|] == es && Push(es, v)[|es|].1 == v
    ensures IntKey(NextIndex(es)) !in Keys(es)
    ensures UniqueKeys(es) ==> UniqueKeys(Push(es, v))
  {
    NextIndexAbove(es);
    var k := IntKey(NextIndex(es));
    KeysConcat(es, [(k, v)]);
    if UniqueKeys(es) {
      var ks := Keys(Push(es, v));
      forall i, j | 0 <= i < j < |ks| ensures ks[i] != ks[j] {
        if j == |es| {
          assert ks[i] == es[i].0;
        }
      }
    }
  }

  /** `implode` puts exactly one separator between neighbouring parts. */
  lemma {:induction false} JoinLength(parts: seq<string>, sep: string)
    requires |parts| > 0
    ensures |Join(parts, sep)| == TotalLength(parts) + (|parts| - 1) * |sep|
    decreases |parts|
  {
    if |parts| > 1 {
      JoinLength(parts[..|parts| - 1], sep);
      assert (|parts| - 1) * |sep| == (|parts| - 2) * |sep| + |sep|;
    }
  }

  /** Appending one part to a non-empty list appends the separator and it. */
  lemma JoinAppend(parts: seq<string>, x: string, sep: string)
    requires |parts| > 0
    ensures Join(parts + [x], sep) == Join(parts, sep) + sep + x
  {
    assert (parts + [x])[..|parts|] == parts;
  }

  /** Wrapping the whole join in `l`…`r` with separator `r + sep + l` is the
      same as wrapping every part and joining with `sep`. */
  lemma {:induction false} JoinWrapped(parts: seq<string>, l: string, r: string, sep: string)
    requires |parts| > 0
    ensures l + Join(parts, r + sep + l) + r ==
      Join(seq(|parts|, i requires 0 <= i < |parts| => l + parts[i] + r), sep)
    decreases |parts|
  {
    var wrapped := seq(|parts|, i requires 0 <= i < |parts| => l + parts[i] + r);
    if |parts| > 1 {
      var init := parts[..|parts| - 1];
      JoinWrapped(init, l, r, sep);
      assert wrapped[..|parts| - 1] == seq(|init|, i requires 0 <= i < |init| => l + init[i] + r);
      var last := parts[|parts| - 1];
      calc {
        l + Join(parts, r + sep + l) + r;
        l + (Join(init, r + sep + l) + (r + sep + l) + last) + r;
        (l + Join(init, r + sep + l) + r) + sep + (l + last + r);
        Join(wrapped, sep);
      }
    }
  }
}
