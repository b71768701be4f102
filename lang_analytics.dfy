/** Language statistics of src/repo_radar/services/lang_analytics.py: the
    byte counts GitHub reports per language, merged over repositories, and
    turned into a share of the total.

    A Python dict keeps its keys in insertion order, and that order decides
    how `to_percentages` orders languages with equal shares, so a map here
    is a sequence of entries with distinct keys, in dict order. */
module LangAnalytics {
  import opened Wrappers
  import opened StableSort

  datatype Entry = Entry(lang: string, bytes: int)

  type LangMap = seq<Entry>

  function Keys(m: LangMap): (ks: seq<string>)
    ensures |ks| == |m|
    ensures forall i :: 0 <= i < |m| ==> ks[i] == m[i].lang
  {
    if |m| == 0 then [] else [m[0].lang] + Keys(m[1..])
  }

  /** What a Python dict is: no key twice. */
  predicate IsDict(m: LangMap) {
    forall i, j :: 0 <= i < j < |m| ==> m[i].lang != m[j].lang
  }

  /** `m.get(k, 0)`. */
  function Get(m: LangMap, k: string): int {
    if |m| == 0 then 0 else if m[0].lang == k then m[0].bytes else Get(m[1..], k)
  }

  /** `m[k] = v`: an existing key keeps its place, a new key goes last. */
  function Put(m: LangMap, k: string, v: int): LangMap {
    if |m| == 0 then [Entry(k, v)]
    else if m[0].lang == k then [Entry(k, v)] + m[1..]
    else [m[0]] + Put(m[1..], k, v)
  }

  /** What `m[k] = v` does: `k` reads as `v`, every other key as before,
      and the key order changes only by a new key at the end. */
  lemma {:induction false} PutFacts(m: LangMap, k: string, v: int)
    ensures Keys(Put(m, k, v)) == if k in Keys(m) then Keys(m) else Keys(m) + [k]
    ensures Get(Put(m, k, v), k) == v
    ensures forall k' :: k' != k ==> Get(Put(m, k, v), k') == Get(m, k')
    decreases |m|
  {
    if |m| > 0 && m[0].lang != k {
      var r := [m[0]] + Put(m[1..], k, v);
      PutFacts(m[1..], k, v);
      assert r[1..] == Put(m[1..], k, v);
      assert Keys(m) == [m[0].lang] + Keys(m[1..]);
    } else if |m| > 0 {
      assert ([Entry(k, v)] + m[1..])[1..] == m[1..];
    }
  }

  lemma {:induction false} DistinctKeysIsDict(m: LangMap)
    requires forall i, j :: 0 <= i < j < |Keys(m)| ==> Keys(m)[i] != Keys(m)[j]
    ensures IsDict(m)
  {
    forall i, j | 0 <= i < j < |m|
      ensures m[i].lang != m[j].lang
    {
      assert Keys(m)[i] == m[i].lang && Keys(m)[j] == m[j].lang;
    }
  }

  /** A key the map does not have reads as 0. */
  lemma {:induction false} GetAbsent(m: LangMap, k: string)
    requires k !in Keys(m)
    ensures Get(m, k) == 0
    decreases |m|
  {
    if |m| > 0 {
      assert Keys(m) == [m[0].lang] + Keys(m[1..]);
      GetAbsent(m[1..], k);
    }
  }

  /** `dict(total)` never holds a key twice. */
  lemma {:induction false} PutKeepsDict(m: LangMap, k: string, v: int)
    requires IsDict(m)
    ensures IsDict(Put(m, k, v))
  {
    var r := Put(m, k, v);
    var ks := Keys(r);
    PutFacts(m, k, v);
    forall i, j | 0 <= i < j < |ks|
      ensures ks[i] != ks[j]
    {
      if k !in Keys(m) && j == |Keys(m)| {
        assert ks[i] == Keys(m)[i];
      } else {
        assert ks[i] == Keys(m)[i] == m[i].lang && ks[j] == Keys(m)[j] == m[j].lang;
      }
    }
    DistinctKeysIsDict(r);
  }

  // ---------------------------------------------------------------------
  // merge_language_maps

  /** `ks` followed by the keys of `s` it does not have yet, each at its
      first occurrence. */
  function AddKeys(ks: seq<string>, s: seq<string>): seq<string>
    decreases |s|
  {
    if |s| == 0 then ks else AddKeys(if s[0] in ks then ks else ks + [s[0]], s[1..])
  }

  /** The keys of `s` in order of first appearance. */
  function FirstOccurrences(s: seq<string>): seq<string> {
    AddKeys([], s)
  }

  lemma {:induction false} AddKeysElements(ks: seq<string>, s: seq<string>, k: string)
    ensures k in AddKeys(ks, s) <==> k in ks || k in s
    decreases |s|
  {
    if |s| > 0 {
      AddKeysElements(if s[0] in ks then ks else ks + [s[0]], s[1..], k);
      assert s == [s[0]] + s[1..];
    }
  }

  lemma {:induction false} AddKeysConcat(ks: seq<string>, s: seq<string>, t: seq<string>)
    ensures AddKeys(ks, s + t) == AddKeys(AddKeys(ks, s), t)
    decreases |s|
  {
    if |s| == 0 {
      assert s + t == t;
    } else {
      assert (s + t)[0] == s[0] && (s + t)[1..] == s[1..] + t;
      AddKeysConcat(if s[0] in ks then ks else ks + [s[0]], s[1..], t);
    }
  }

  /** `m or {}`. */
  function OrEmpty(m: Option<LangMap>): LangMap {
    if m.Some? then m.value else []
  }

  /** The keys of the non-`None` maps, map after map. */
  function AllKeys(langMaps: seq<Option<LangMap>>): seq<string> {
    if |langMaps| == 0 then [] else Keys(OrEmpty(langMaps[0])) + AllKeys(langMaps[1..])
  }

  /** `m` is a map, not `None`, and has the key `k`. */
  predicate HasKey(m: Option<LangMap>, k: string) {
    m.Some? && k in Keys(m.value)
  }

  /** The sum of the values of `k` over the non-`None` maps. */
  function MergedValue(langMaps: seq<Option<LangMap>>, k: string): int {
    if |langMaps| == 0 then 0 else Get(OrEmpty(langMaps[0]), k) + MergedValue(langMaps[1..], k)
  }

  /** `t` after `t.update(m)` on a `Counter`: each key of `m` in turn adds
      its value to the count, a new key going last. */
  function Counted(t: LangMap, m: LangMap): LangMap
    decreases |m|
  {
    if |m| == 0 then t else Counted(Put(t, m[0].lang, Get(t, m[0].lang) + m[0].bytes), m[1..])
  }

  /** `t` after updating it with each map of `langMaps`. */
  function MergeInto(t: LangMap, langMaps: seq<Option<LangMap>>): LangMap
    decreases |langMaps|
  {
    if |langMaps| == 0 then t else MergeInto(Counted(t, OrEmpty(langMaps[0])), langMaps[1..])
  }

  lemma {:induction false} CountedIsDict(t: LangMap, m: LangMap)
    requires IsDict(t)
    ensures IsDict(Counted(t, m))
    decreases |m|
  {
    if |m| > 0 {
      PutKeepsDict(t, m[0].lang, Get(t, m[0].lang) + m[0].bytes);
      CountedIsDict(Put(t, m[0].lang, Get(t, m[0].lang) + m[0].bytes), m[1..]);
    }
  }

  lemma {:induction false} CountedKeys(t: LangMap, m: LangMap)
    ensures Keys(Counted(t, m)) == AddKeys(Keys(t), Keys(m))
    decreases |m|
  {
    if |m| > 0 {
      var t' := Put(t, m[0].lang, Get(t, m[0].lang) + m[0].bytes);
      PutFacts(t, m[0].lang, Get(t, m[0].lang) + m[0].bytes);
      CountedKeys(t', m[1..]);
      assert Keys(m) == [m[0].lang] + Keys(m[1..]);
    }
  }

  lemma {:induction false} CountedValues(t: LangMap, m: LangMap, k: string)
    requires IsDict(m)
    ensures Get(Counted(t, m), k) == Get(t, k) + Get(m, k)
    decreases |m|
  {
    if |m| > 0 {
      var t' := Put(t, m[0].lang, Get(t, m[0].lang) + m[0].bytes);
      PutFacts(t, m[0].lang, Get(t, m[0].lang) + m[0].bytes);
      assert IsDict(m[1..]);
      CountedValues(t', m[1..], k);
      if m[0].lang == k {
        assert k !in Keys(m[1..]);
        GetAbsent(m[1..], k);
      }
    }
  }

  lemma {:induction false} MergeIntoFacts(t: LangMap, langMaps: seq<Option<LangMap>>, k: string)
    requires IsDict(t)
    requires forall i :: 0 <= i < |langMaps| && langMaps[i].Some? ==> IsDict(langMaps[i].value)
    ensures IsDict(MergeInto(t, langMaps))
    ensures Keys(MergeInto(t, langMaps)) == AddKeys(Keys(t), AllKeys(langMaps))
    ensures Get(MergeInto(t, langMaps), k) == Get(t, k) + MergedValue(langMaps, k)
    decreases |langMaps|
  {
    if |langMaps| > 0 {
      var m := OrEmpty(langMaps[0]);
      var t' := Counted(t, m);
      assert IsDict(m);
      CountedIsDict(t, m);
      CountedKeys(t, m);
      CountedValues(t, m, k);
      MergeIntoFacts(t', langMaps[1..], k);
      AddKeysConcat(Keys(t), Keys(m), AllKeys(langMaps[1..]));
    }
  }

  lemma {:induction false} CountedStep(r: LangMap, m: LangMap, j: nat)
    requires j < |m|
    ensures Counted(r, m[j..]) == Counted(Put(r, m[j].lang, Get(r, m[j].lang) + m[j].bytes), m[j + 1..])
  {
    assert m[j..][0] == m[j] && m[j..][1..] == m[j + 1..];
  }

  /** `total.update(m)`, key by key. */
  method Update(total: LangMap, m: LangMap) returns (r: LangMap)
    ensures r == Counted(total, m)
  {
    r := total;
    var j := 0;
    while j < |m|
      invariant 0 <= j <= |m|
      invariant Counted(r, m[j..]) == Counted(total, m)
    {
      CountedStep(r, m, j);
      r := Put(r, m[j].lang, Get(r, m[j].lang) + m[j].bytes);
      j := j + 1;
    }
  }

  /** `merge_language_maps(lang_maps)`: a `Counter` that each map in turn
      updates. The result holds every key of the non-`None` maps once, in
      order of first appearance, with the sum of its values over all maps;
      a missing key counts as 0. */
  method MergeLanguageMaps(langMaps: seq<Option<LangMap>>) returns (total: LangMap)
    requires forall i :: 0 <= i < |langMaps| && langMaps[i].Some? ==> IsDict(langMaps[i].value)
    ensures total == MergeInto([], langMaps)
    ensures IsDict(total)
    ensures Keys(total) == FirstOccurrences(AllKeys(langMaps))
    ensures forall k :: Get(total, k) == MergedValue(langMaps, k)
  {
    total := [];
    var i := 0;
    while i < |langMaps|
      invariant 0 <= i <= |langMaps|
      invariant MergeInto(total, langMaps[i..]) == MergeInto([], langMaps)
    {
      assert langMaps[i..][0] == langMaps[i] && langMaps[i..][1..] == langMaps[i + 1..];
      total := Update(total, OrEmpty(langMaps[i]));
      i := i + 1;
    }
    forall k
      ensures Get(total, k) == MergedValue(langMaps, k)
    {
      MergeIntoFacts([], langMaps, k);
    }
    MergeIntoFacts([], langMaps, "");
  }

  /** A key is in the merged map exactly when some non-`None` input map has
      it. */
  lemma {:induction false} MergedKeys(langMaps: seq<Option<LangMap>>, k: string)
    ensures k in FirstOccurrences(AllKeys(langMaps)) <==> exists i :: 0 <= i < |langMaps| && HasKey(langMaps[i], k)
    decreases |langMaps|
  {
    AddKeysElements([], AllKeys(langMaps), k);
    if |langMaps| > 0 {
      var rest := langMaps[1..];
      MergedKeys(rest, k);
      AddKeysElements([], AllKeys(rest), k);
      if exists i :: 0 <= i < |rest| && HasKey(rest[i], k) {
        var i :| 0 <= i < |rest| && HasKey(rest[i], k);
        assert langMaps[i + 1] == rest[i];
      }
      if exists i :: 0 <= i < |langMaps| && HasKey(langMaps[i], k) {
        var i :| 0 <= i < |langMaps| && HasKey(langMaps[i], k);
        if i > 0 {
          assert rest[i - 1] == langMaps[i];
        }
      }
    }
  }

  /** No maps, or only `None`, give an empty map. */
  lemma {:induction false} NothingToMerge(langMaps: seq<Option<LangMap>>)
    requires forall i :: 0 <= i < |langMaps| ==> langMaps[i].None?
    ensures MergeInto([], langMaps) == []
    decreases |langMaps|
  {
    if |langMaps| > 0 {
      NothingToMerge(langMaps[1..]);
    }
  }

  // ---------------------------------------------------------------------
  // to_percentages

  function Total(m: LangMap): int {
    if |m| == 0 then 0 else m[0].bytes + Total(m[1..])
  }

  /** `sum(byte_map.values()) or 1`: an empty or zero total divides by 1. */
  function Divisor(m: LangMap): (d: int)
    ensures d != 0
    ensures Total(m) != 0 ==> d == Total(m)
  {
    var t := Total(m);
    if t == 0 then 1 else t
  }

  /** `(v / total) * 100.0`, in exact arithmetic. */
  function Percent(v: int, d: int): real
    requires d != 0
  {
    (v as real / d as real) * 100.0
  }

  datatype Share = Share(lang: string, percent: real)

  function Shares(m: LangMap, d: int): (ps: seq<Share>)
    requires d != 0
    ensures |ps| == |m|
    ensures forall i :: 0 <= i < |m| ==> ps[i] == Share(m[i].lang, Percent(m[i].bytes, d))
  {
    if |m| == 0 then [] else [Share(m[0].lang, Percent(m[0].bytes, d))] + Shares(m[1..], d)
  }

  function ShareKey(p: Share): real {
    p.percent
  }

  /** `to_percentages(byte_map)`: each language with its share of the
      total, by non-increasing share; languages with equal shares keep
      their dict order. */
  function ToPercentages(byteMap: LangMap): seq<Share> {
    SortDesc(Shares(byteMap, Divisor(byteMap)), ShareKey)
  }

  /** One share per language, computed with the divisor, ordered by
      non-increasing share, with equal shares in input order. */
  lemma {:induction false} ToPercentagesSpec(byteMap: LangMap, p: real)
    ensures var r := ToPercentages(byteMap);
      && multiset(r) == multiset(Shares(byteMap, Divisor(byteMap)))
      && |r| == |byteMap|
      && SortedDesc(r, ShareKey)
      && WithKey(r, ShareKey, p) == WithKey(Shares(byteMap, Divisor(byteMap)), ShareKey, p)
  {
    var ps := Shares(byteMap, Divisor(byteMap));
    SortDescPermutes(ps, ShareKey);
    SortDescSorted(ps, ShareKey);
    SortDescStable(ps, ShareKey, p);
  }

  function SumPercent(ps: seq<Share>): real {
    if |ps| == 0 then 0.0 else ps[0].percent + SumPercent(ps[1..])
  }

  lemma {:induction false} InsertKeepsSum(x: Share, ys: seq<Share>)
    ensures SumPercent(Insert(x, ys, ShareKey)) == x.percent + SumPercent(ys)
    decreases |ys|
  {
    if |ys| == 0 || ShareKey(x) >= ShareKey(ys[0]) {
      assert ([x] + ys)[1..] == ys;
    } else {
      var rest := Insert(x, ys[1..], ShareKey);
      InsertKeepsSum(x, ys[1..]);
      assert ([ys[0]] + rest)[1..] == rest;
    }
  }

  lemma {:induction false} SortKeepsSum(ps: seq<Share>)
    ensures SumPercent(SortDesc(ps, ShareKey)) == SumPercent(ps)
    decreases |ps|
  {
    if |ps| > 0 {
      SortKeepsSum(ps[1..]);
      InsertKeepsSum(ps[0], SortDesc(ps[1..], ShareKey));
    }
  }

  lemma {:induction false} SharesSum(m: LangMap, d: int)
    requires d != 0
    ensures SumPercent(Shares(m, d)) == Percent(Total(m), d)
    decreases |m|
  {
    if |m| > 0 {
      var ps := Shares(m, d);
      assert ps[1..] == Shares(m[1..], d);
      SharesSum(m[1..], d);
      var x := m[0].bytes as real;
      var y := Total(m[1..]) as real;
      assert (x / d as real) * 100.0 + (y / d as real) * 100.0 == ((x + y) / d as real) * 100.0;
    }
  }

  /** In exact arithmetic the shares of a map with a nonzero total add up
      to 100. */
  lemma {:induction false} PercentagesSumTo100(byteMap: LangMap)
    requires Total(byteMap) != 0
    ensures SumPercent(ToPercentages(byteMap)) == 100.0
  {
    var t := Total(byteMap);
    SortKeepsSum(Shares(byteMap, t));
    SharesSum(byteMap, t);
    WholeIsHundred(t);
  }

  lemma {:induction false} WholeIsHundred(t: int)
    requires t != 0
    ensures Percent(t, t) == 100.0
  {
    var tr := t as real;
    assert tr / tr * tr == tr;
  }

  /** An empty map gives an empty list. */
  lemma {:induction false} EmptyMapNoShares()
    ensures ToPercentages([]) == []
  {
  }
}
