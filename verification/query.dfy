/** What the web handlers read out of a request: the path (the second
    word of the request text), and the query dictionary of a path. The text
    between the first and second `?` is cut at every `&`, each piece is cut
    at every `=`, and the first two cuts become a key and its value, a later
    key replacing an earlier one. Any cut that is not there is an
    `IndexError`, modelled as `None`, as is a value `int()` refuses. The
    forms the browser pages submit are built here too, so that every
    handler can be checked against what its form sends. */
module Query {
  import opened Util
  import opened Text

  type Pair = (string, string)

  /** `kv.split("=")[0]` and `kv.split("=")[1]`; `None` without an `=`. */
  function PairOf(kv: string): (r: Option<Pair>)
    ensures r.Some? <==> '=' in kv
    ensures r.Some? ==> '=' !in r.value.0 && '=' !in r.value.1
  {
    SplitCountsSeparator(kv, '=');
    var p := Split(kv, '=');
    if |p| >= 2 then Some((p[0], p[1])) else None
  }

  /** Every piece holds an `=`. */
  predicate AllPaired(parts: seq<string>) {
    forall i :: 0 <= i < |parts| ==> '=' in parts[i]
  }

  /** The pairs of all pieces, in order; `None` as soon as one has no `=`. */
  function PairsOf(parts: seq<string>): (r: Option<seq<Pair>>)
    ensures r.Some? <==> AllPaired(parts)
    ensures r.Some? ==> |r.value| == |parts|
    ensures r.Some? ==> forall i :: 0 <= i < |parts| ==> PairOf(parts[i]) == Some(r.value[i])
    decreases |parts|
  {
    if |parts| == 0 then Some([])
    else
      match PairOf(parts[0])
      case None => None
      case Some(p) =>
        var rest := PairsOf(parts[1..]);
        assert forall i :: 0 < i < |parts| ==> parts[i] == parts[1..][i - 1];
        if rest.None? then None else Some([p] + rest.value)
  }

  /** The dictionary a comprehension builds from the pairs in order. */
  function ToMap(ps: seq<Pair>): (m: map<string, string>)
    ensures forall i :: 0 <= i < |ps| ==> ps[i].0 in m
    ensures forall k :: k in m ==> exists i :: 0 <= i < |ps| && ps[i].0 == k
    decreases |ps|
  {
    if |ps| == 0 then map[]
    else
      var init := ps[..|ps| - 1];
      var m := ToMap(init)[ps[|ps| - 1].0 := ps[|ps| - 1].1];
      assert forall i :: 0 <= i < |ps| - 1 ==> ps[i] == init[i];
      m
  }

  /** A key maps to the value of its last occurrence. */
  lemma {:induction false} ToMapLastWins(ps: seq<Pair>, j: nat)
    requires j < |ps|
    requires forall i :: j < i < |ps| ==> ps[i].0 != ps[j].0
    ensures ToMap(ps)[ps[j].0] == ps[j].1
    decreases |ps|
  {
    if j < |ps| - 1 {
      var init := ps[..|ps| - 1];
      assert init[j] == ps[j];
      assert forall i :: j < i < |init| ==> init[i] == ps[i];
      ToMapLastWins(init, j);
    }
  }

  /** `path.split("?")[1]`: the text between the first and second `?`. */
  function Params(path: string): (r: Option<string>)
    ensures r.Some? <==> '?' in path
    ensures r.Some? ==> '?' !in r.value
  {
    SplitCountsSeparator(path, '?');
    var pieces := Split(path, '?');
    if |pieces| >= 2 then Some(pieces[1]) else None
  }

  /** The query dictionary of a request path: present exactly when the
      path has a `?` and every `&`-piece of its parameters has an `=`. */
  function ParseQuery(path: string): (r: Option<map<string, string>>)
    ensures r.Some? <==> Params(path).Some? && AllPaired(Split(Params(path).value, '&'))
    ensures r.Some? ==> r.value == ToMap(PairsOf(Split(Params(path).value, '&')).value)
  {
    match Params(path)
    case None => None
    case Some(params) =>
      match PairsOf(Split(params, '&'))
      case None => None
      case Some(ps) => Some(ToMap(ps))
  }

  /** Text that survives the round trip as a key or a value. */
  predicate Clean(s: string) {
    '?' !in s && '&' !in s && '=' !in s
  }

  /** The `k=v&k=v` text a form submits. */
  function EncodeQuery(ps: seq<Pair>): string
    requires |ps| >= 1
  {
    Join(Encoded(ps), '&')
  }

  function Encoded(ps: seq<Pair>): (parts: seq<string>)
    ensures |parts| == |ps|
    ensures forall i :: 0 <= i < |ps| ==> parts[i] == ps[i].0 + "=" + ps[i].1
  {
    seq(|ps|, i requires 0 <= i < |ps| => ps[i].0 + "=" + ps[i].1)
  }

  lemma PairRoundTrip(k: string, v: string)
    requires Clean(k) && Clean(v)
    ensures PairOf(k + "=" + v) == Some((k, v))
  {
    SplitAfterPrefix(k, '=', v);
    SplitNoSeparator(v, '=');
    assert k + "=" + v == k + ['='] + v;
  }

  lemma {:induction false} JoinAvoids(parts: seq<string>, c: char, d: char)
    requires |parts| >= 1
    requires forall i :: 0 <= i < |parts| ==> d !in parts[i]
    requires c != d
    ensures d !in Join(parts, c)
    decreases |parts|
  {
    if |parts| > 1 {
      assert forall i :: 0 <= i < |parts[1..]| ==> parts[1..][i] == parts[i + 1];
      JoinAvoids(parts[1..], c, d);
    }
  }

  /** Appending `?` and parameters to a route with no `?` is undone by
      `Params`. */
  lemma ParamsAfterRoute(route: string, q: string)
    requires '?' !in route && '?' !in q
    ensures Params(route + "?" + q) == Some(q)
  {
    assert route + "?" + q == route + ['?'] + q;
    SplitPair(route, '?', q);
  }

  lemma PairsOfEncoded(ps: seq<Pair>)
    requires forall i :: 0 <= i < |ps| ==> Clean(ps[i].0) && Clean(ps[i].1)
    ensures PairsOf(Encoded(ps)) == Some(ps)
  {
    var parts := Encoded(ps);
    forall i | 0 <= i < |parts|
      ensures '=' in parts[i] && PairOf(parts[i]) == Some(ps[i])
    {
      PairRoundTrip(ps[i].0, ps[i].1);
    }
    var r := PairsOf(parts);
    assert r.Some?;
    forall i | 0 <= i < |ps| ensures r.value[i] == ps[i] {
      assert PairOf(parts[i]) == Some(r.value[i]);
    }
    assert r.value == ps;
  }

  /** A form built from clean keys and values, appended after a `?` to a
      route with no `?`, parses back to the dictionary of its pairs. */
  lemma ParseQueryRoundTrip(route: string, ps: seq<Pair>)
    requires '?' !in route && |ps| >= 1
    requires forall i :: 0 <= i < |ps| ==> Clean(ps[i].0) && Clean(ps[i].1)
    ensures ParseQuery(route + "?" + EncodeQuery(ps)) == Some(ToMap(ps))
  {
    var parts := Encoded(ps);
    forall i | 0 <= i < |parts|
      ensures '&' !in parts[i] && '?' !in parts[i]
    {
      assert parts[i] == ps[i].0 + "=" + ps[i].1;
    }
    JoinAvoids(parts, '&', '?');
    ParamsAfterRoute(route, EncodeQuery(ps));
    SplitJoin(parts, '&');
    PairsOfEncoded(ps);
  }

  /** Parameters with a piece that has no `=` (the empty parameter text
      included) fail as a whole. */
  lemma ParseQueryNeedsPairs(route: string, ps: seq<Pair>, bare: string)
    requires '?' !in route && Clean(bare)
    requires forall i :: 0 <= i < |ps| ==> Clean(ps[i].0) && Clean(ps[i].1)
    ensures ParseQuery(route + "?" + bare).None?
    ensures |ps| >= 1 ==> ParseQuery(route + "?" + EncodeQuery(ps) + "&" + bare).None?
  {
    ParamsAfterRoute(route, bare);
    SplitNoSeparator(bare, '&');
    if |ps| >= 1 {
      var parts := Encoded(ps);
      forall i | 0 <= i < |parts|
        ensures '&' !in parts[i] && '?' !in parts[i]
      {
        assert parts[i] == ps[i].0 + "=" + ps[i].1;
      }
      var all := parts + [bare];
      forall i | 0 <= i < |all| ensures '&' !in all[i] && '?' !in all[i] {
      }
      JoinAppend(parts, bare, '&');
      JoinAvoids(all, '&', '?');
      assert route + "?" + EncodeQuery(ps) + "&" + bare == route + "?" + Join(all, '&');
      ParamsAfterRoute(route, Join(all, '&'));
      SplitJoin(all, '&');
      assert '=' !in all[|all| - 1];
    }
  }

  lemma {:induction false} JoinAppend(parts: seq<string>, last: string, c: char)
    requires |parts| >= 1
    ensures Join(parts + [last], c) == Join(parts, c) + [c] + last
    decreases |parts|
  {
    if |parts| > 1 {
      assert (parts + [last])[1..] == parts[1..] + [last];
      JoinAppend(parts[1..], last, c);
    }
  }

  /** A piece with two `=` keeps only the text between them as its value. */
  lemma PairCutAtSecond(k: string, v: string, extra: string)
    requires Clean(k) && Clean(v) && Clean(extra)
    ensures PairOf(k + "=" + v + "=" + extra) == Some((k, v))
  {
    assert k + "=" + v + "=" + extra == k + ['='] + (v + ['='] + extra);
    SplitAfterPrefix(k, '=', v + ['='] + extra);
    SplitPair(v, '=', extra);
  }

  lemma PairsOfTwo(a: string, b: string)
    requires '=' in a && '=' in b
    ensures PairsOf([a, b]) == Some([PairOf(a).value, PairOf(b).value])
  {
    var parts := [a, b];
    assert AllPaired(parts);
    var r := PairsOf(parts);
    assert PairOf(parts[0]) == Some(r.value[0]) && PairOf(parts[1]) == Some(r.value[1]);
    assert r.value == [PairOf(a).value, PairOf(b).value];
  }

  lemma ToMapSameKey(k: string, v1: string, v2: string)
    ensures ToMap([(k, v1), (k, v2)]) == map[k := v2]
  {
    assert [(k, v1), (k, v2)][..1] == [(k, v1)];
    assert [(k, v1)][..0] == [];
    assert map[k := v1][k := v2] == map[k := v2];
  }

  /** A repeated key keeps its last value, and a value is cut at its
      second `=`. */
  lemma ParseQueryRepeatedKey(route: string, k: string, v1: string, v2: string, extra: string)
    requires '?' !in route && Clean(k) && Clean(v1) && Clean(v2) && Clean(extra)
    ensures ParseQuery(route + "?" + (k + "=" + v1) + "&" + (k + "=" + v2 + "=" + extra)) == Some(map[k := v2])
  {
    PairRoundTrip(k, v1);
    PairCutAtSecond(k, v2, extra);
    ParseSameKeyTwice(route, k + "=" + v1, k + "=" + v2 + "=" + extra, k, v1, v2);
  }

  /** Two pieces with the same key: the dictionary holds the second value. */
  lemma ParseSameKeyTwice(route: string, first: string, second: string, k: string, v1: string, v2: string)
    requires '?' !in route && PairOf(first) == Some((k, v1)) && PairOf(second) == Some((k, v2))
    requires '?' !in first && '&' !in first && '?' !in second && '&' !in second
    ensures ParseQuery(route + "?" + first + "&" + second) == Some(map[k := v2])
  {
    ParseTwoPieces(route, first, second, (k, v1), (k, v2));
    ToMapSameKey(k, v1, v2);
  }

  /** Parameters of two pieces, each with an `=`, parse to the dictionary
      of their two pairs. */
  lemma ParseTwoPieces(route: string, first: string, second: string, p: Pair, q: Pair)
    requires '?' !in route && PairOf(first) == Some(p) && PairOf(second) == Some(q)
    requires '?' !in first && '&' !in first && '?' !in second && '&' !in second
    ensures ParseQuery(route + "?" + first + "&" + second) == Some(ToMap([p, q]))
  {
    var params := first + "&" + second;
    assert route + "?" + first + "&" + second == route + "?" + params;
    ParamsAfterRoute(route, params);
    assert params == first + ['&'] + second;
    SplitPair(first, '&', second);
    PairsOfTwo(first, second);
    assert Split(params, '&') == [first, second];
  }

  /** The non-empty pieces, in order. */
  function NonEmpty(pieces: seq<string>): (r: seq<string>)
    ensures forall i :: 0 <= i < |r| ==> r[i] != "" && r[i] in pieces
    ensures |r| <= |pieces|
    decreases |pieces|
  {
    if |pieces| == 0 then []
    else if pieces[0] == "" then NonEmpty(pieces[1..])
    else [pieces[0]] + NonEmpty(pieces[1..])
  }

  /** `request.split()[1]`, or `/` when the request has fewer than two
      words. The request is the text `str()` makes of the received bytes,
      which writes every control character as an escape, so a space is the
      only white space in it. */
  function RequestPath(request: string): (path: string)
    ensures ' ' !in path
  {
    var words := NonEmpty(Split(request, ' '));
    if |words| >= 2 then words[1] else "/"
  }

  /** The path is the second word of the request line. */
  lemma RequestPathOfLine(verb: string, path: string, rest: string)
    requires verb != "" && ' ' !in verb && path != "" && ' ' !in path
    ensures RequestPath(verb + " " + path + " " + rest) == path
  {
    var tail := path + [' '] + rest;
    assert verb + " " + path + " " + rest == verb + [' '] + tail;
    SplitAfterPrefix(verb, ' ', tail);
    SplitAfterPrefix(path, ' ', rest);
    var later := [path] + Split(rest, ' ');
    var pieces := [verb] + later;
    assert pieces[1..] == later && later[1..] == Split(rest, ' ');
    assert NonEmpty(later) == [path] + NonEmpty(Split(rest, ' '));
    assert NonEmpty(pieces) == [verb] + NonEmpty(later);
  }

  /** A request of one word or none is served as the index page. */
  lemma RequestPathShort(word: string)
    requires ' ' !in word
    ensures RequestPath(word) == "/"
  {
    SplitNoSeparator(word, ' ');
    assert [word][1..] == [];
  }

  /** `int(query[key])`; `None` for a missing key or a malformed number. */
  function IntField(q: map<string, string>, key: string): (r: Option<int>)
    ensures r.Some? <==> key in q && ParseInt(q[key]).Some?
    ensures r.Some? ==> ParseInt(q[key]) == r
  {
    if key in q then ParseInt(q[key]) else None
  }

  /** The hour, minute and second a set-time path carries, read in that
      order; any failure is `None`. */
  function TimeFields(path: string): (r: Option<(int, int, int)>)
    ensures r.Some? <==> ParseQuery(path).Some? && var q := ParseQuery(path).value;
      IntField(q, "h").Some? && IntField(q, "m").Some? && IntField(q, "s").Some?
    ensures r.Some? ==> var q := ParseQuery(path).value;
      r.value == (IntField(q, "h").value, IntField(q, "m").value, IntField(q, "s").value)
  {
    match ParseQuery(path)
    case None => None
    case Some(q) =>
      var h := IntField(q, "h");
      var m := IntField(q, "m");
      var sec := IntField(q, "s");
      if h.Some? && m.Some? && sec.Some? then Some((h.value, m.value, sec.value)) else None
  }

  /** Every character of `str(n)` is a digit or a sign. */
  lemma IntToStringClean(n: int)
    ensures Clean(IntToString(n))
  {
    var s := IntToString(n);
    assert forall i :: 0 <= i < |s| ==> IsDigit(s[i]) || s[i] == '-' by {
      if n < 0 {
        assert forall i :: 1 <= i < |s| ==> s[i] == NatToString(-n)[i - 1];
      }
    }
  }

  /** The path the set-time form submits. */
  function TimeForm(h: int, m: int, sec: int): string {
    "/set_time?" + EncodeQuery([("h", IntToString(h)), ("m", IntToString(m)), ("s", IntToString(sec))])
  }

  /** In a form built from clean text with distinct keys, every key reads
      back its own value. */
  lemma FormValue(route: string, ps: seq<Pair>, j: nat)
    requires '?' !in route && j < |ps|
    requires forall i :: 0 <= i < |ps| ==> Clean(ps[i].0) && Clean(ps[i].1)
    requires forall i, k :: 0 <= i < k < |ps| ==> ps[i].0 != ps[k].0
    ensures var q := ParseQuery(route + "?" + EncodeQuery(ps));
      q.Some? && ps[j].0 in q.value && q.value[ps[j].0] == ps[j].1
  {
    ParseQueryRoundTrip(route, ps);
    ToMapLastWins(ps, j);
  }

  lemma TimeFormQuery(h: int, m: int, sec: int)
    ensures var q := ParseQuery(TimeForm(h, m, sec));
      && q.Some? && "h" in q.value && "m" in q.value && "s" in q.value
      && q.value["h"] == IntToString(h) && q.value["m"] == IntToString(m) && q.value["s"] == IntToString(sec)
  {
    var ps := [("h", IntToString(h)), ("m", IntToString(m)), ("s", IntToString(sec))];
    assert TimeForm(h, m, sec) == "/set_time" + "?" + EncodeQuery(ps);
    IntToStringClean(h);
    IntToStringClean(m);
    IntToStringClean(sec);
    FormValue("/set_time", ps, 0);
    FormValue("/set_time", ps, 1);
    FormValue("/set_time", ps, 2);
  }

  lemma TimeFormFields(h: int, m: int, sec: int)
    ensures TimeFields(TimeForm(h, m, sec)) == Some((h, m, sec))
  {
    TimeFormQuery(h, m, sec);
    ParseIntRoundTrip(h);
    ParseIntRoundTrip(m);
    ParseIntRoundTrip(sec);
  }

}
