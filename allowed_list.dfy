/** `AllowedList` of flask_contact/utils.py: a membership test built once from
    a configuration value, in one of three modes (everything, nothing, an
    explicit list), and a filter over mappings and sequences that keeps the
    allowed entries in their original order. */
module AllowedLists {
  import opened Sequences

  /** The Python values a membership question can be asked about: strings,
      integers (`1 in AllowedList('*')`) and `None`. */
  datatype Value = Str(s: string) | Int(i: int) | NoneValue

  /** The value `AllowedList` is constructed from: `None`, a string or a list. */
  datatype Config = Absent | Text(text: string) | List(values: seq<Value>)

  /** The configuration that permits everything. */
  const Wildcard: Config := Text("*")

  /** Python truthiness of a configuration: `None`, `''` and `[]` are false. */
  predicate Truthy(c: Config)
    ensures Truthy(c) <==> c != Absent && c != Text("") && c != List([])
  {
    match c
    case Absent => false
    case Text(t) => t != ""
    case List(vs) => vs != []
  }

  /** An allow-list; `allowedItems` is what `__init__` stored. */
  datatype AllowedList = AllowedList(allowedItems: Config)

  /** `AllowedList(c)`: `self.allowed_items = allowed_items or []`, so a falsy
      configuration is replaced by the empty list and no allow-list is ever
      built on `None` or on the empty string. */
  function Make(c: Config): (a: AllowedList)
    ensures a.allowedItems != Absent && a.allowedItems != Text("")
    ensures !Truthy(c) ==> a.allowedItems == List([])
  {
    AllowedList(if Truthy(c) then c else List([]))
  }

  /** Wraps each string as a Python string value. */
  function StrValues(ts: seq<string>): (vs: seq<Value>)
    ensures |vs| == |ts|
    ensures forall i :: 0 <= i < |ts| ==> vs[i] == Str(ts[i])
  {
    if |ts| == 0 then [] else [Str(ts[0])] + StrValues(ts[1..])
  }

  /** `items()`: a string is split on single spaces, a list is used as it is.
      The tokens of a string never contain a space. */
  function Items(a: AllowedList): (r: seq<Value>)
    ensures a.allowedItems.Text? ==> forall v :: v in r ==> v.Str? && ' ' !in v.s
  {
    match a.allowedItems
    case Text(t) => StrValues(Split(t, ' '))
    case List(vs) => vs
    case Absent => []  // `Make` never stores `None`
  }

  /** `key in allowed`: the stored value `'*'` admits everything; otherwise the
      key must be one of the items. */
  predicate Contains(a: AllowedList, key: Value)
    ensures a.allowedItems == Wildcard ==> Contains(a, key)
    ensures a.allowedItems == List([]) ==> !Contains(a, key)
    ensures Contains(a, key) && a.allowedItems.Text? && a.allowedItems != Wildcard ==> key.Str? && ' ' !in key.s
  {
    a.allowedItems == Wildcard || key in Items(a)
  }

  /** `filter` on a list: the allowed elements, in order. */
  function FilterKeys(a: AllowedList, xs: seq<Value>): (r: seq<Value>)
    ensures |r| <= |xs|
  {
    if |xs| == 0 then []
    else if Contains(a, xs[0]) then [xs[0]] + FilterKeys(a, xs[1..])
    else FilterKeys(a, xs[1..])
  }

  /** `filter` on a dict, given as its `(key, value)` pairs in iteration order:
      the pairs whose key is allowed, in order. */
  function FilterPairs<V(==,!new)>(a: AllowedList, m: seq<(string, V)>): (r: seq<(string, V)>)
    ensures |r| <= |m|
  {
    if |m| == 0 then []
    else if Contains(a, Str(m[0].0)) then [m[0]] + FilterPairs(a, m[1..])
    else FilterPairs(a, m[1..])
  }

  // ---------------------------------------------------------------------------
  // The three membership modes

  /** `'*'` admits every key, including `''`, `1` and `None`. */
  lemma WildcardAdmitsAll(key: Value)
    ensures Contains(Make(Wildcard), key)
  {
  }

  /** `None`, `''` and `[]` admit nothing. */
  lemma FalsyAdmitsNothing(c: Config, key: Value)
    requires !Truthy(c)
    ensures !Contains(Make(c), key)
  {
  }

  lemma {:induction false} StrValuesMember(ts: seq<string>, k: string)
    ensures Str(k) in StrValues(ts) <==> k in ts
  {
    if Str(k) in StrValues(ts) {
      var i :| 0 <= i < |ts| && StrValues(ts)[i] == Str(k);
      assert ts[i] == k;
    }
    if k in ts {
      var i :| 0 <= i < |ts| && ts[i] == k;
      assert StrValues(ts)[i] == Str(k);
    }
  }

  /** Any other string admits exactly its space-separated tokens, compared
      for equality; a non-string key is never admitted. */
  lemma TextAdmitsTokens(t: string, key: Value)
    requires t != "*" && t != ""
    ensures Contains(Make(Text(t)), key) <==> key.Str? && key.s in Split(t, ' ')
  {
    if key.Str? {
      StrValuesMember(Split(t, ' '), key.s);
    }
  }

  /** A string without spaces admits itself and nothing else. */
  lemma SingleTokenAdmitsItself(t: string, key: Value)
    requires t != "*" && t != "" && ' ' !in t
    ensures Contains(Make(Text(t)), key) <==> key == Str(t)
  {
    TextAdmitsTokens(t, key);
    SplitWithoutSeparator(t, ' ');
  }

  /** A non-empty list admits exactly its elements; it is never a wildcard,
      not even `['*']`. */
  lemma ListAdmitsElements(vs: seq<Value>, key: Value)
    requires vs != []
    ensures Contains(Make(List(vs)), key) <==> key in vs
  {
  }

  /** The examples of the test suite for `'a b'`. */
  lemma TwoTokenExample()
    ensures Contains(Make(Text("a b")), Str("a"))
    ensures Contains(Make(Text("a b")), Str("b"))
    ensures !Contains(Make(Text("a b")), Str("c"))
    ensures !Contains(Make(Text("a b")), Str(""))
  {
    SplitJoin(["a", "b"], ' ');
    assert Join(["a", "b"], ' ') == "a b";
    forall k | k in ["c", ""] ensures !Contains(Make(Text("a b")), Str(k)) {
      TextAdmitsTokens("a b", Str(k));
    }
  }

  // ---------------------------------------------------------------------------
  // Filtering

  /** Filtering a mapping keeps exactly the pairs whose key is allowed. */
  lemma {:induction false} FilterPairsMembers<V(!new)>(a: AllowedList, m: seq<(string, V)>)
    ensures forall p :: p in FilterPairs(a, m) <==> p in m && Contains(a, Str(p.0))
  {
    if |m| > 0 {
      FilterPairsMembers(a, m[1..]);
      assert m == [m[0]] + m[1..];
    }
  }

  /** Filtering keeps the order of the mapping: the result is a subsequence. */
  lemma {:induction false} FilterPairsSubsequence<V(!new)>(a: AllowedList, m: seq<(string, V)>)
    ensures IsSubsequence(FilterPairs(a, m), m)
  {
    if |m| > 0 {
      FilterPairsSubsequence(a, m[1..]);
      var r := FilterPairs(a, m);
      if Contains(a, Str(m[0].0)) {
        assert r[0] == m[0] && r[1..] == FilterPairs(a, m[1..]);
      }
    }
  }

  /** Filtering a concatenation filters each part. */
  lemma {:induction false} FilterPairsAppend<V(!new)>(a: AllowedList, m1: seq<(string, V)>, m2: seq<(string, V)>)
    ensures FilterPairs(a, m1 + m2) == FilterPairs(a, m1) + FilterPairs(a, m2)
  {
    if |m1| == 0 {
      assert m1 + m2 == m2;
    } else {
      AppendFront(m1, m2);
      FilterPairsAppend(a, m1[1..], m2);
      var kept := if Contains(a, Str(m1[0].0)) then [m1[0]] else [];
      AppendAssoc(kept, FilterPairs(a, m1[1..]), FilterPairs(a, m2));
    }
  }

  /** `'*'` keeps the whole mapping. */
  lemma {:induction false} FilterPairsWildcard<V(!new)>(m: seq<(string, V)>)
    ensures FilterPairs(Make(Wildcard), m) == m
  {
    if |m| > 0 {
      FilterPairsWildcard(m[1..]);
      assert [m[0]] + m[1..] == m;
    }
  }

  /** A falsy configuration keeps nothing. */
  lemma FilterPairsFalsy<V(!new)>(c: Config, m: seq<(string, V)>)
    requires !Truthy(c)
    ensures FilterPairs(Make(c), m) == []
  {
    var r := FilterPairs(Make(c), m);
    FilterPairsMembers(Make(c), m);
    assert forall i :: 0 <= i < |r| ==> r[i] in r;
  }

  /** The dict example of the test suite. */
  lemma FilterPairsExample()
    ensures FilterPairs(Make(Text("a")), [("a", "b"), ("c", "d")]) == [("a", "b")]
  {
    SingleTokenAdmitsItself("a", Str("a"));
    SingleTokenAdmitsItself("a", Str("c"));
  }

  /** Filtering a list keeps exactly the allowed elements. */
  lemma {:induction false} FilterKeysMembers(a: AllowedList, xs: seq<Value>)
    ensures forall x :: x in FilterKeys(a, xs) <==> x in xs && Contains(a, x)
  {
    if |xs| > 0 {
      FilterKeysMembers(a, xs[1..]);
      assert xs == [xs[0]] + xs[1..];
    }
  }

  /** Filtering a list keeps its order: the result is a subsequence. */
  lemma {:induction false} FilterKeysSubsequence(a: AllowedList, xs: seq<Value>)
    ensures IsSubsequence(FilterKeys(a, xs), xs)
  {
    if |xs| > 0 {
      FilterKeysSubsequence(a, xs[1..]);
      var r := FilterKeys(a, xs);
      if Contains(a, xs[0]) {
        assert r[0] == xs[0] && r[1..] == FilterKeys(a, xs[1..]);
      }
    }
  }

  /** Filtering a concatenated list filters each part: together with
      `FilterKeysMembers` and `FilterKeysSubsequence` this keeps every copy
      of an allowed element. */
  lemma {:induction false} FilterKeysAppend(a: AllowedList, xs: seq<Value>, ys: seq<Value>)
    ensures FilterKeys(a, xs + ys) == FilterKeys(a, xs) + FilterKeys(a, ys)
  {
    if |xs| == 0 {
      assert xs + ys == ys;
    } else {
      AppendFront(xs, ys);
      FilterKeysAppend(a, xs[1..], ys);
      var kept := if Contains(a, xs[0]) then [xs[0]] else [];
      AppendAssoc(kept, FilterKeys(a, xs[1..]), FilterKeys(a, ys));
    }
  }

  /** `'*'` keeps the whole list. */
  lemma {:induction false} FilterKeysWildcard(xs: seq<Value>)
    ensures FilterKeys(Make(Wildcard), xs) == xs
  {
    if |xs| > 0 {
      FilterKeysWildcard(xs[1..]);
      assert [xs[0]] + xs[1..] == xs;
    }
  }

  /** A falsy configuration keeps nothing of a list. */
  lemma FilterKeysFalsy(c: Config, xs: seq<Value>)
    requires !Truthy(c)
    ensures FilterKeys(Make(c), xs) == []
  {
    var r := FilterKeys(Make(c), xs);
    FilterKeysMembers(Make(c), xs);
    assert forall i :: 0 <= i < |r| ==> r[i] in r;
  }

  /** The list example of the test suite. */
  lemma FilterKeysExample()
    ensures FilterKeys(Make(Text("a")), [Str("b"), Str("a"), Str("c")]) == [Str("a")]
  {
    SingleTokenAdmitsItself("a", Str("a"));
    SingleTokenAdmitsItself("a", Str("b"));
    SingleTokenAdmitsItself("a", Str("c"));
  }
}
