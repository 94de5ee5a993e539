/** A Python `dict`. Python dicts remember insertion order:
    `keys` is that order and `entries` the mapping itself. Assigning to a key
    that is already present replaces its value and keeps its position. */
module Dicts {
  import opened Wrappers
  import opened PyBuiltins

  datatype Dict<K(!new), V> = Dict(keys: seq<K>, entries: map<K, V>) {
    /** The keys are listed once each and are exactly the mapped names. */
    ghost predicate Valid() {
      Distinct(keys) && forall k :: k in entries <==> k in keys
    }
  }

  /** `{}` */
  function Empty<K(!new), V>(): (d: Dict<K, V>)
    ensures d.Valid() && d.entries == map[]
  {
    Dict([], map[])
  }

  /** `d[k] = v` */
  function Put<K(!new), V>(d: Dict<K, V>, k: K, v: V): (r: Dict<K, V>)
    requires d.Valid()
    ensures r.Valid()
    ensures r.entries == d.entries[k := v]
    ensures k in d.entries ==> r.keys == d.keys
    ensures k !in d.entries ==> r.keys == d.keys + [k]
  {
    if k in d.entries then Dict(d.keys, d.entries[k := v])
    else Dict(d.keys + [k], d.entries[k := v])
  }

  /** The names that occur as first components of `pairs`. */
  function KeysOf<K(!new), V>(pairs: seq<(K, V)>): (ks: set<K>)
    ensures forall i :: 0 <= i < |pairs| ==> pairs[i].0 in ks
  {
    if pairs == [] then {}
    else
      var init := pairs[..|pairs| - 1];
      assert forall i :: 0 <= i < |init| ==> init[i] == pairs[i];
      KeysOf(init) + {pairs[|pairs| - 1].0}
  }

  /** No later pair has the same name as pair `i`. */
  ghost predicate IsLastWithKey<K(!new), V>(pairs: seq<(K, V)>, i: int)
    requires 0 <= i < |pairs|
  {
    forall j :: i < j < |pairs| ==> pairs[j].0 != pairs[i].0
  }

  /** `dict(pairs)`, i.e. `d[k] = v` for each pair in turn: the names of the
      pairs become the keys. */
  function FromPairs<K(!new), V>(pairs: seq<(K, V)>): (d: Dict<K, V>)
    ensures d.Valid()
    ensures d.entries.Keys == KeysOf(pairs)
  {
    if pairs == [] then Empty()
    else
      var init := pairs[..|pairs| - 1];
      var p := pairs[|pairs| - 1];
      var d := Put(FromPairs(init), p.0, p.1);
      assert KeysOf(pairs) == KeysOf(init) + {p.0};
      d
  }

  /** Every entry of `dict(pairs)` is one of the pairs. */
  lemma {:induction false} FromPairsEntry<K(!new), V>(pairs: seq<(K, V)>, k: K)
    requires k in FromPairs(pairs).entries
    ensures exists i :: 0 <= i < |pairs| && pairs[i] == (k, FromPairs(pairs).entries[k])
  {
    var init := pairs[..|pairs| - 1];
    var p := pairs[|pairs| - 1];
    if k == p.0 {
      assert pairs[|pairs| - 1] == (k, FromPairs(pairs).entries[k]);
    } else {
      FromPairsEntry(init, k);
      var i :| 0 <= i < |init| && init[i] == (k, FromPairs(init).entries[k]);
      assert pairs[i] == init[i];
    }
  }

  /** In `dict(pairs)` the last pair with a name gives its value. */
  lemma {:induction false} FromPairsLastWins<K(!new), V>(pairs: seq<(K, V)>, i: int)
    requires 0 <= i < |pairs| && IsLastWithKey(pairs, i)
    ensures pairs[i].0 in FromPairs(pairs).entries
    ensures FromPairs(pairs).entries[pairs[i].0] == pairs[i].1
  {
    var init := pairs[..|pairs| - 1];
    if i < |pairs| - 1 {
      assert pairs[i] == init[i];
      assert IsLastWithKey(init, i);
      FromPairsLastWins(init, i);
    }
  }

  lemma {:induction false} DistinctCard<K(!new)>(s: seq<K>)
    requires Distinct(s)
    ensures |set x | x in s| == |s|
  {
    if s != [] {
      var init := s[..|s| - 1];
      DistinctCard(init);
      assert (set x | x in s) == (set x | x in init) + {s[|s| - 1]};
      assert s[|s| - 1] !in init;
    }
  }

  /** `len(d)` is the number of distinct keys. */
  lemma LenIsKeyCount<K(!new), V>(d: Dict<K, V>)
    requires d.Valid()
    ensures |d.keys| == |d.entries.Keys|
  {
    DistinctCard(d.keys);
    assert d.entries.Keys == set x | x in d.keys;
  }

  // ---------------------------------------------------------------------
  // Filling a dict in a loop: `k, v = read(item)` then `d[k] = v`
  // ---------------------------------------------------------------------

  /** Reads each item in turn as a key and a value; the first item that
      raises ends it. */
  function ReadPairs<T, K, V, E>(items: seq<T>, read: T -> Result<(K, V), E>): Result<seq<(K, V)>, E> {
    if items == [] then Success([])
    else
      match ReadPairs(items[..|items| - 1], read)
      case Failure(err) => Failure(err)
      case Success(pairs) =>
        match read(items[|items| - 1])
        case Failure(err) => Failure(err)
        case Success(p) => Success(pairs + [p])
  }

  /** The items read together exactly when each of them reads, and then give
      one pair per item, in order. */
  lemma {:induction false} ReadPairsEach<T, K, V, E>(items: seq<T>, read: T -> Result<(K, V), E>)
    ensures ReadPairs(items, read).Success? <==> forall i :: 0 <= i < |items| ==> read(items[i]).Success?
    ensures ReadPairs(items, read).Success? ==>
      var pairs := ReadPairs(items, read).value;
      |pairs| == |items| && forall i :: 0 <= i < |items| ==> read(items[i]) == Success(pairs[i])
  {
    if items != [] {
      var init := items[..|items| - 1];
      assert forall i :: 0 <= i < |init| ==> init[i] == items[i];
      ReadPairsEach(init, read);
    }
  }

  /** No later item reads with the key of item `i`. */
  ghost predicate LastItemWithKey<T, K, V, E>(items: seq<T>, read: T -> Result<(K, V), E>, i: int)
    requires 0 <= i < |items|
    requires forall j :: 0 <= j < |items| ==> read(items[j]).Success?
  {
    forall j :: i < j < |items| ==> read(items[j]).value.0 != read(items[i]).value.0
  }

  /** In the dict filled from the items, every item's key is present and the
      last item with a key gives its value. */
  lemma StoredLastWins<T, K(!new), V, E>(items: seq<T>, read: T -> Result<(K, V), E>, i: int)
    requires 0 <= i < |items| && ReadPairs(items, read).Success?
    ensures forall j :: 0 <= j < |items| ==> read(items[j]).Success?
    ensures read(items[i]).value.0 in FromPairs(ReadPairs(items, read).value).entries
    ensures LastItemWithKey(items, read, i) ==>
      FromPairs(ReadPairs(items, read).value).entries[read(items[i]).value.0] == read(items[i]).value.1
  {
    ReadPairsEach(items, read);
    var pairs := ReadPairs(items, read).value;
    assert pairs[i].0 in KeysOf(pairs);
    if LastItemWithKey(items, read, i) {
      assert IsLastWithKey(pairs, i);
      FromPairsLastWins(pairs, i);
    }
  }

  /** Every entry of the dict filled from the items is what some item reads
      as. */
  lemma StoredFromItems<T, K(!new), V, E>(items: seq<T>, read: T -> Result<(K, V), E>, k: K)
    requires ReadPairs(items, read).Success?
    requires k in FromPairs(ReadPairs(items, read).value).entries
    ensures exists i :: 0 <= i < |items| && read(items[i]) == Success((k, FromPairs(ReadPairs(items, read).value).entries[k]))
  {
    ReadPairsEach(items, read);
    var pairs := ReadPairs(items, read).value;
    FromPairsEntry(pairs, k);
    var i :| 0 <= i < |pairs| && pairs[i] == (k, FromPairs(pairs).entries[k]);
    assert read(items[i]) == Success(pairs[i]);
  }

  /** One more item for `ReadPairs`. */
  lemma ReadPairsStep<T, K, V, E>(items: seq<T>, read: T -> Result<(K, V), E>, i: nat)
    requires i < |items|
    ensures ReadPairs(items[..i + 1], read) ==
      match ReadPairs(items[..i], read)
      case Failure(err) => Failure(err)
      case Success(pairs) =>
        match read(items[i])
        case Failure(err) => Failure(err)
        case Success(p) => Success(pairs + [p])
  {
    assert items[..i + 1][..i] == items[..i];
  }

  /** A failure on a prefix of the items is the failure of all of them. */
  lemma {:induction false} ReadPairsPrefixFailure<T, K, V, E>(items: seq<T>, read: T -> Result<(K, V), E>, k: nat)
    requires k <= |items|
    requires ReadPairs(items[..k], read).Failure?
    ensures ReadPairs(items, read) == ReadPairs(items[..k], read)
  {
    if k < |items| {
      var init := items[..|items| - 1];
      assert init[..k] == items[..k];
      ReadPairsPrefixFailure(init, read, k);
    } else {
      assert items[..k] == items;
    }
  }

  /** The loop `for item in items: k, v = read(item); d[k] = v` from an empty
      dict: the dict of the pairs read, or the first exception. */
  method StorePairs<T, K(!new), V, E>(items: seq<T>, read: T -> Result<(K, V), E>) returns (r: Result<Dict<K, V>, E>)
    ensures r == match ReadPairs(items, read)
                 case Failure(err) => Failure(err)
                 case Success(pairs) => Success(FromPairs(pairs))
  {
    var d := Empty();
    ghost var pairs: seq<(K, V)> := [];
    var i := 0;
    while i < |items|
      invariant 0 <= i <= |items|
      invariant ReadPairs(items[..i], read) == Success(pairs)
      invariant d == FromPairs(pairs)
    {
      var item := read(items[i]);
      ReadPairsStep(items, read, i);
      if item.Failure? {
        ReadPairsPrefixFailure(items, read, i + 1);
        return Failure(item.error);
      }
      var (k, v) := item.value;
      d := Put(d, k, v);
      assert (pairs + [(k, v)])[..|pairs|] == pairs;
      pairs := pairs + [(k, v)];
      i := i + 1;
    }
    assert items[..i] == items;
    r := Success(d);
  }
}
