/**
 * The part of the browser's URL handling the gallery page relies on:
 * `location.search` of a path such as "/gallery?filter=gems", and
 * `new URLSearchParams(search).get(name)`.
 */
module Query {
  import opened Optional

  /** The prefix of `s` before the first `c`, or all of `s` when there is none. */
  function Before(s: string, c: char): (r: string)
    ensures |r| <= |s| && r == s[..|r|]
    ensures c !in r
    ensures |r| < |s| ==> s[|r|] == c
    ensures c !in s ==> r == s
  {
    if s == [] then []
    else if s[0] == c then []
    else [s[0]] + Before(s[1..], c)
  }

  /** The suffix of `s` after the first `c`, or None when `s` holds no `c`. */
  function After(s: string, c: char): (r: Option<string>)
    ensures r.None? <==> c !in s
    ensures r.Some? ==> s == Before(s, c) + [c] + r.value
  {
    if s == [] then None
    else if s[0] == c then Some(s[1..])
    else After(s[1..], c)
  }

  /** Splitting `p + [c] + rest` at its first `c`, when `p` holds no `c`, gives back `p` and `rest`. */
  lemma {:induction false} SplitAtFirst(p: string, c: char, rest: string)
    requires c !in p
    ensures Before(p + [c] + rest, c) == p
    ensures After(p + [c] + rest, c) == Some(rest)
  {
    if p != [] {
      assert (p + [c] + rest)[1..] == p[1..] + [c] + rest;
      SplitAtFirst(p[1..], c, rest);
    }
  }

  /** `location.search`: from the first '?' of the part before any '#', or "" when that query is empty. */
  function Search(url: string): (s: string)
    ensures s == [] || (s[0] == '?' && |s| > 1)
    ensures '#' !in s
    ensures '?' !in url ==> s == []
  {
    match After(Before(url, '#'), '?')
    case None => ""
    case Some(q) => if q == "" then "" else "?" + q
  }

  /** `s` split at every `sep`, as `String.prototype.split` does; never empty. */
  function Split(s: string, sep: char): (r: seq<string>)
    ensures |r| >= 1
    ensures forall i :: 0 <= i < |r| ==> sep !in r[i]
  {
    if s == [] then [""]
    else if s[0] == sep then [""] + Split(s[1..], sep)
    else
      var rest := Split(s[1..], sep);
      [[s[0]] + rest[0]] + rest[1..]
  }

  lemma {:induction false} SplitWithoutSeparator(s: string, sep: char)
    requires sep !in s
    ensures Split(s, sep) == [s]
  {
    if s != [] {
      SplitWithoutSeparator(s[1..], sep);
      assert [s[0]] + s[1..] == s;
    }
  }

  /** Form decoding of a name or value: '+' stands for a space. */
  function Decode(s: string): (r: string)
    ensures |r| == |s|
    ensures forall i :: 0 <= i < |s| ==> r[i] == (if s[i] == '+' then ' ' else s[i])
  {
    if s == [] then [] else [if s[0] == '+' then ' ' else s[0]] + Decode(s[1..])
  }

  /** One `name=value` piece; a piece without '=' has the empty value. */
  function Pair(piece: string): (string, string)
  {
    (Decode(Before(piece, '=')),
     match After(piece, '=') case None => "" case Some(v) => Decode(v))
  }

  /** The name/value list of a query string: pieces between '&', empty pieces skipped. */
  function Pairs(pieces: seq<string>): (r: seq<(string, string)>)
    ensures |r| <= |pieces|
  {
    if pieces == [] then []
    else if pieces[0] == "" then Pairs(pieces[1..])
    else [Pair(pieces[0])] + Pairs(pieces[1..])
  }

  /** The value of the first pair named `name`. */
  function Lookup(pairs: seq<(string, string)>, name: string): (r: Option<string>)
    ensures r.Some? <==> exists i :: 0 <= i < |pairs| && pairs[i].0 == name
    ensures r.Some? ==> exists i :: 0 <= i < |pairs| && pairs[i] == (name, r.value)
                         && forall j :: 0 <= j < i ==> pairs[j].0 != name
  {
    if pairs == [] then None
    else if pairs[0].0 == name then Some(pairs[0].1)
    else
      var r := Lookup(pairs[1..], name);
      assert forall i :: 1 <= i < |pairs| ==> pairs[i] == pairs[1..][i - 1];
      if r.Some? then
        var k :| 0 <= k < |pairs[1..]| && pairs[1..][k] == (name, r.value)
                 && forall j :: 0 <= j < k ==> pairs[1..][j].0 != name;
        assert pairs[k + 1] == (name, r.value);
        r
      else
        r
  }

  /** `new URLSearchParams(search).get(name)`: a leading '?' is dropped first. */
  function Get(search: string, name: string): (r: Option<string>)
    ensures search == "" || search == "?" ==> r == None
  {
    var body := if search != [] && search[0] == '?' then search[1..] else search;
    Lookup(Pairs(Split(body, '&')), name)
  }

  /** Characters a query value may hold and still read back unchanged (percent-decoding aside). */
  predicate SafeValue(v: string) {
    '&' !in v && '#' !in v && '%' !in v && '+' !in v
  }

  lemma {:induction false} DecodeWithoutPlus(s: string)
    requires '+' !in s
    ensures Decode(s) == s
  {
  }

  /**
   * Writing `path + "?" + name + "=" + v` and reading `name` back from its
   * search string yields `v`.
   */
  lemma WriteThenGet(path: string, name: string, v: string)
    requires '?' !in path && '#' !in path
    requires name != "" && SafeValue(name) && '=' !in name
    requires SafeValue(v)
    ensures Get(Search(path + "?" + name + "=" + v), name) == Some(v)
  {
    var url := path + "?" + name + "=" + v;
    var q := name + "=" + v;
    assert '#' !in url;
    assert url == path + ['?'] + q;
    SplitAtFirst(path, '?', q);
    assert Search(url) == "?" + q;
    assert ("?" + q)[1..] == q;
    assert '&' !in q;
    SplitWithoutSeparator(q, '&');
    assert q == name + ['='] + v;
    SplitAtFirst(name, '=', v);
    DecodeWithoutPlus(name);
    DecodeWithoutPlus(v);
    assert Pair(q) == (name, v);
    assert Pairs([q]) == [(name, v)];
  }

  /** A path with no query has no parameter at all. */
  lemma NoQueryNoParam(path: string, name: string)
    requires '?' !in path
    ensures Get(Search(path), name) == None
  {
    assert Split("", '&') == [""];
  }
}
