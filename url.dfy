/**
 * Query-string helpers of `src/lib/utils.ts`: `createUrl` and
 * `createSearchParams`. A `URLSearchParams` is the ordered list of its
 * name/value entries.
 */
module Url {
  import opened Wrappers

  type Entry = (string, string)

  /** A value of the `Record<string, string | string[]>` passed to `createSearchParams`. */
  datatype ParamValue = Single(value: string) | Multiple(values: seq<string>)

  /**
   * `URLSearchParams.toString()`: `name=value` for each entry, joined with
   * `&`. `encode` stands for the form-urlencoded serializer of names and values.
   */
  function Serialize(entries: seq<Entry>, encode: string -> string): string
    decreases |entries|
  {
    if entries == [] then ""
    else
      var first := encode(entries[0].0) + "=" + encode(entries[0].1);
      if |entries| == 1 then first else first + "&" + Serialize(entries[1..], encode)
  }

  /** The serialized parameters are empty exactly when there are no entries. */
  lemma {:induction false} SerializeEmptyIff(entries: seq<Entry>, encode: string -> string)
    ensures Serialize(entries, encode) == "" <==> entries == []
  {
    if entries != [] {
      var first := encode(entries[0].0) + "=" + encode(entries[0].1);
      assert |first| >= 1;
    }
  }

  /** `createUrl`: the pathname, then `?` and the serialized parameters when there are any. */
  function CreateUrl(pathname: string, params: seq<Entry>, encode: string -> string): (r: string)
    ensures params == [] ==> r == pathname
    ensures params != [] ==> r == pathname + "?" + Serialize(params, encode)
  {
    SerializeEmptyIff(params, encode);
    var paramsString := Serialize(params, encode);
    var queryString := (if |paramsString| > 0 then "?" else "") + paramsString;
    pathname + queryString
  }

  /** The position of the first occurrence of `c` in `s`, if any. */
  function IndexOf(s: string, c: char): (r: Option<nat>)
    ensures r.None? <==> c !in s
    ensures r.Some? ==> r.value < |s| && s[r.value] == c && c !in s[..r.value]
    decreases |s|
  {
    if s == [] then None
    else if s[0] == c then Some(0)
    else
      var rest := IndexOf(s[1..], c);
      if rest.None? then None
      else
        assert s[..rest.value + 1] == [s[0]] + s[1..][..rest.value];
        Some(rest.value + 1)
  }

  /** Splits a URL at its first `?` into the path and the query string. */
  function SplitQuery(url: string): (string, string)
  {
    match IndexOf(url, '?')
    case None => (url, "")
    case Some(i) => (url[..i], url[i + 1..])
  }

  lemma {:induction false} IndexOfAfterPrefix(p: string, q: string, c: char)
    requires c !in p
    ensures IndexOf(p + [c] + q, c) == Some(|p|)
    decreases |p|
  {
    if p != [] {
      assert (p + [c] + q)[1..] == p[1..] + [c] + q;
      IndexOfAfterPrefix(p[1..], q, c);
    }
  }

  /** `createUrl` can be split back into the pathname and the serialized parameters. */
  lemma CreateUrlSplits(pathname: string, params: seq<Entry>, encode: string -> string)
    requires '?' !in pathname
    ensures SplitQuery(CreateUrl(pathname, params, encode)) == (pathname, Serialize(params, encode))
  {
    var r := CreateUrl(pathname, params, encode);
    SerializeEmptyIff(params, encode);
    if params != [] {
      var q := Serialize(params, encode);
      assert r == pathname + ['?'] + q;
      IndexOfAfterPrefix(pathname, q, '?');
      assert r[..|pathname|] == pathname;
      assert r[|pathname| + 1..] == q;
    }
  }

  /** The entries `createSearchParams` appends for one key. */
  function EntriesFor(key: string, v: ParamValue): (r: seq<Entry>)
    ensures |r| == Count(v)
  {
    match v
    case Single(s) => [(key, s)]
    case Multiple(vs) => seq(|vs|, j requires 0 <= j < |vs| => (key, vs[j]))
  }

  /** How many entries one value contributes: one for a string, one per element of an array. */
  function Count(v: ParamValue): nat
  {
    match v
    case Single(_) => 1
    case Multiple(vs) => |vs|
  }

  /**
   * The entries appended for a whole record, key by key in order. `params`
   * is the record as `Object.entries` lists it: each key once, integer-like
   * keys first in ascending order, then the others in insertion order. That
   * ordering is taken as given, not computed here.
   */
  function Expand(params: seq<(string, ParamValue)>): seq<Entry>
    decreases |params|
  {
    if params == [] then []
    else
      var last := params[|params| - 1];
      Expand(params[..|params| - 1]) + EntriesFor(last.0, last.1)
  }

  function TotalCount(params: seq<(string, ParamValue)>): nat
    decreases |params|
  {
    if params == [] then 0 else TotalCount(params[..|params| - 1]) + Count(params[|params| - 1].1)
  }

  /** One entry per string value and one per array element. */
  lemma {:induction false} ExpandLength(params: seq<(string, ParamValue)>)
    ensures |Expand(params)| == TotalCount(params)
    decreases |params|
  {
    if params != [] {
      ExpandLength(params[..|params| - 1]);
    }
  }

  /** Every appended entry carries a key of the record. */
  lemma {:induction false} ExpandKeys(params: seq<(string, ParamValue)>, j: nat)
    requires j < |Expand(params)|
    ensures exists i :: 0 <= i < |params| && params[i].0 == Expand(params)[j].0
    decreases |params|
  {
    var init := params[..|params| - 1];
    var last := params[|params| - 1];
    if j < |Expand(init)| {
      ExpandKeys(init, j);
      var i :| 0 <= i < |init| && init[i].0 == Expand(init)[j].0;
      assert params[i] == init[i];
    } else {
      assert Expand(params)[j] == EntriesFor(last.0, last.1)[j - |Expand(init)|];
    }
  }

  /** Every value of every key is appended, under that key. */
  lemma {:induction false} ExpandKeepsValues(params: seq<(string, ParamValue)>, i: nat, v: string)
    requires i < |params|
    requires params[i].1 == Single(v) || (params[i].1.Multiple? && v in params[i].1.values)
    ensures (params[i].0, v) in Expand(params)
    decreases |params|
  {
    var init := params[..|params| - 1];
    var last := params[|params| - 1];
    if i < |params| - 1 {
      assert params[i] == init[i];
      ExpandKeepsValues(init, i, v);
    } else {
      match last.1
      case Single(s) =>
        assert (last.0, v) == EntriesFor(last.0, last.1)[0];
      case Multiple(vs) =>
        var k :| 0 <= k < |vs| && vs[k] == v;
        assert (last.0, v) == EntriesFor(last.0, last.1)[k];
    }
  }

  lemma ExpandStep(params: seq<(string, ParamValue)>, i: nat)
    requires i < |params|
    ensures Expand(params[..i + 1]) == Expand(params[..i]) + EntriesFor(params[i].0, params[i].1)
  {
    assert params[..i + 1][..i] == params[..i];
  }

  lemma EntriesStep(key: string, vs: seq<string>, j: nat)
    requires j < |vs|
    ensures EntriesFor(key, Multiple(vs[..j + 1])) == EntriesFor(key, Multiple(vs[..j])) + [(key, vs[j])]
  {
  }

  /** The inner loop of `createSearchParams`: appends `key=value` for each element of an array value. */
  method AppendEach(entries: seq<Entry>, key: string, vs: seq<string>) returns (updated: seq<Entry>)
    ensures updated == entries + EntriesFor(key, Multiple(vs))
  {
    updated := entries;
    for j := 0 to |vs|
      invariant updated == entries + EntriesFor(key, Multiple(vs[..j]))
    {
      EntriesStep(key, vs, j);
      updated := updated + [(key, vs[j])];
    }
    assert vs[..|vs|] == vs;
  }

  /** `new URLSearchParams(init)`: a copy of the given entries, none when `init` is absent. */
  function Copy(init: Option<seq<Entry>>): seq<Entry>
  {
    if init.Some? then init.value else []
  }

  /**
   * `createSearchParams`: starts from a copy of `newParams` and appends, in
   * order, one entry per string value and one per element of an array value.
   */
  method CreateSearchParams(params: seq<(string, ParamValue)>, newParams: Option<seq<Entry>>)
    returns (updated: seq<Entry>)
    ensures updated == Copy(newParams) + Expand(params)
  {
    var base := Copy(newParams);
    updated := base;
    for i := 0 to |params|
      invariant updated == base + Expand(params[..i])
    {
      ExpandStep(params, i);
      var key := params[i].0;
      var values := params[i].1;
      ghost var before := updated;
      if values.Multiple? {
        updated := AppendEach(updated, key, values.values);
      } else {
        updated := updated + [(key, values.value)];
      }
      assert updated == before + EntriesFor(key, values);
      AppendAssoc(base, Expand(params[..i]), EntriesFor(key, values));
    }
    assert params[..|params|] == params;
  }

  lemma AppendAssoc(a: seq<Entry>, b: seq<Entry>, c: seq<Entry>)
    ensures (a + b) + c == a + (b + c)
  {
  }

  /** What `createSearchParams` keeps and adds: the old entries first, then one per value. */
  lemma CreateSearchParamsShape(params: seq<(string, ParamValue)>, base: seq<Entry>)
    ensures var updated := base + Expand(params);
      && updated[..|base|] == base
      && |updated| == |base| + TotalCount(params)
  {
    ExpandLength(params);
  }
}
