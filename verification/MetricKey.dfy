/** The string key under which the emitter remembers a metric (witchcraft/server_metrics.go:256-269),
    a decoder for it, and the tag normalisation that makes the decoder apply. */
module MetricKey {
  import opened Options
  import opened Strings

  type Tags = map<string, string>

  /** One "key:value" element of the slice. */
  function Pair(k: string, v: string): string {
    k + ":" + v
  }

  /** The elements in the order in which the map happens to be iterated. */
  function Pairs(order: seq<string>, tags: Tags): seq<string>
    requires forall k :: k in order ==> k in tags
  {
    if order == [] then [] else [Pair(order[0], tags[order[0]])] + Pairs(order[1..], tags)
  }

  /** An iteration of the map: every key once. */
  ghost predicate Iterates(order: seq<string>, tags: Tags) {
    && (forall k :: k in order <==> k in tags)
    && (forall i, j :: 0 <= i < j < |order| ==> order[i] != order[j])
  }

  /** "{id}:{type}:[{tags joined by a space}]", the %v form of a string slice. */
  function Format(id: string, ty: string, slice: seq<string>): string {
    Head(id, ty) + ":" + "[" + Join(slice, ' ') + "]"
  }

  function Head(id: string, ty: string): string {
    id + ":" + ty
  }

  function KeyFor(id: string, ty: string, tags: Tags, order: seq<string>): string
    requires forall k :: k in order ==> k in tags
  {
    Format(id, ty, Sort(Pairs(order, tags)))
  }

  // ---------------------------------------------------------------- iteration order

  lemma {:induction false} PairsOfRemoved(order: seq<string>, j: nat, tags: Tags)
    requires j < |order| && forall k :: k in order ==> k in tags
    ensures multiset(Pairs(order, tags)) ==
            multiset{Pair(order[j], tags[order[j]])} + multiset(Pairs(order[..j] + order[j + 1..], tags))
  {
    var rest := order[..j] + order[j + 1..];
    if j == 0 {
      assert rest == order[1..];
    } else {
      PairsOfRemoved(order[1..], j - 1, tags);
      TailOfRemoved(order, j);
    }
  }

  /** Removing an element and then the head. */
  lemma TailOfRemoved(order: seq<string>, j: nat)
    requires 0 < j < |order|
    ensures var rest := order[..j] + order[j + 1..];
      rest[0] == order[0] && rest[1..] == order[1..][..j - 1] + order[1..][j..]
  {
    assert order[..j][1..] == order[1..][..j - 1];
    assert order[j + 1..] == order[1..][j..];
  }

  /** The slice before sorting holds the same elements whatever the iteration order. */
  lemma {:induction false} PairsIgnoreOrder(a: seq<string>, b: seq<string>, tags: Tags)
    requires Iterates(a, tags) && Iterates(b, tags)
    ensures multiset(Pairs(a, tags)) == multiset(Pairs(b, tags))
    decreases |a|
  {
    assert |a| > 0 ==> a[0] in tags;
    assert |b| > 0 ==> b[0] in tags;
    if a != [] {
      var x := a[0];
      assert x in a && x in b;
      var j :| 0 <= j < |b| && b[j] == x;
      var b' := b[..j] + b[j + 1..];
      var tags' := tags - {x};
      PairsOfRemoved(b, j, tags);
      RestIterates(a, 0, tags);
      RestIterates(b, j, tags);
      assert a[..0] + a[1..] == a[1..];
      PairsIgnoreOrder(a[1..], b', tags');
      PairsOfSubmap(a[1..], tags', tags);
      PairsOfSubmap(b', tags', tags);
    }
  }

  lemma RestIterates(order: seq<string>, j: nat, tags: Tags)
    requires Iterates(order, tags) && j < |order|
    ensures Iterates(order[..j] + order[j + 1..], tags - {order[j]})
  {
  }

  lemma {:induction false} PairsOfSubmap(order: seq<string>, small: Tags, large: Tags)
    requires forall k :: k in order ==> k in small && k in large && small[k] == large[k]
    ensures Pairs(order, small) == Pairs(order, large)
  {
    if order != [] {
      PairsOfSubmap(order[1..], small, large);
    }
  }

  /** The key does not depend on the iteration order of the map. */
  lemma KeyIgnoresOrder(id: string, ty: string, tags: Tags, a: seq<string>, b: seq<string>)
    requires Iterates(a, tags) && Iterates(b, tags)
    ensures KeyFor(id, ty, tags, a) == KeyFor(id, ty, tags, b)
  {
    PairsIgnoreOrder(a, b, tags);
    SortIgnoresOrder(Pairs(a, tags), Pairs(b, tags));
  }

  /** Fills a slice in map order, sorts it and formats it. The result is the key for every order. */
  method TagMapKey(id: string, ty: string, tags: Tags) returns (key: string)
    ensures forall order :: Iterates(order, tags) ==> key == KeyFor(id, ty, tags, order)
  {
    var slice: seq<string> := [];
    var left := tags.Keys;
    ghost var done: seq<string> := [];
    while left != {}
      invariant left <= tags.Keys
      invariant forall k :: k in done <==> k in tags && k !in left
      invariant forall i, j :: 0 <= i < j < |done| ==> done[i] != done[j]
      invariant slice == Pairs(done, tags)
      decreases |left|
    {
      var k :| k in left;
      PairsAppend(done, k, tags);
      slice := slice + [Pair(k, tags[k])];
      done := done + [k];
      left := left - {k};
    }
    key := Format(id, ty, Sort(slice));
    forall order | Iterates(order, tags)
      ensures key == KeyFor(id, ty, tags, order)
    {
      KeyIgnoresOrder(id, ty, tags, done, order);
    }
  }

  lemma {:induction false} PairsAppend(order: seq<string>, k: string, tags: Tags)
    requires k in tags && forall x :: x in order ==> x in tags
    ensures Pairs(order + [k], tags) == Pairs(order, tags) + [Pair(k, tags[k])]
  {
    if order != [] {
      assert (order + [k])[1..] == order[1..] + [k];
      PairsAppend(order[1..], k, tags);
    }
  }

  /** What a key looks like: the tags come in order, whatever order the map was iterated in. */
  lemma KeyOfTwoTags(id: string, ty: string)
    ensures KeyFor(id, ty, map["b" := "2", "a" := "1"], ["b", "a"]) == id + ":" + ty + ":[a:1 b:2]"
  {
    var tags := map["b" := "2", "a" := "1"];
    var slice := Pairs(["b", "a"], tags);
    assert ["b", "a"][1..] == ["a"] && Pair("a", "1") == "a:1" && Pair("b", "2") == "b:2";
    assert Pairs(["a"], tags) == ["a:1"];
    assert slice == ["b:2", "a:1"];
    assert Le("a:1", "b:2") && !Le("b:2", "a:1");
    assert Sort(["a:1"]) == ["a:1"] && slice[1..] == ["a:1"];
    assert Sort(slice) == ["a:1", "b:2"];
    assert Join(["b:2"], ' ') == "b:2" && ["a:1", "b:2"][1..] == ["b:2"];
    assert Join(["a:1", "b:2"], ' ') == "a:1 b:2";
  }

  // ---------------------------------------------------------------- decoding

  /** What the decoder relies on. The metric id may be any string. */
  predicate Decodable(ty: string, tags: Tags) {
    && ':' !in ty
    && (forall k :: k in tags ==> ':' !in k && Plain(k) && Plain(tags[k]))
  }

  predicate Plain(s: string) {
    ' ' !in s && '[' !in s
  }

  /** The map named by "key:value" pieces. */
  function ToMap(pieces: seq<string>): Tags {
    if pieces == [] then map[]
    else
      var i := First(pieces[0], ':');
      if i == |pieces[0]| then ToMap(pieces[1..]) else ToMap(pieces[1..])[pieces[0][..i] := pieces[0][i + 1..]]
  }

  /** Undoes the format: the last '[' opens the tags, the last ':' before it ends the type, and the
      last ':' before that ends the id. */
  function Decode(key: string): Option<(string, string, Tags)> {
    var open := Last(key, '[');
    if open.None? || open.value < 1 || |key| < open.value + 2 then None
    else
      var head := key[..open.value - 1];
      var colon := Last(head, ':');
      if colon.None? then None
      else
        var body := key[open.value + 1..|key| - 1];
        var tags := if body == [] then map[] else ToMap(Split(body, ' '));
        Some((head[..colon.value], head[colon.value + 1..], tags))
  }

  /** Every piece is an entry of the map and every entry is a piece. */
  ghost predicate Covers(pieces: seq<string>, tags: Tags) {
    && (forall p :: p in pieces ==> IsEntry(p, tags))
    && (forall k :: k in tags ==> Pair(k, tags[k]) in pieces)
  }

  ghost predicate IsEntry(p: string, tags: Tags) {
    exists k :: k in tags && p == Pair(k, tags[k])
  }

  lemma {:induction false} PairsCover(order: seq<string>, tags: Tags)
    requires forall k :: k in order ==> k in tags
    ensures forall p :: p in Pairs(order, tags) <==> exists k :: k in order && p == Pair(k, tags[k])
    ensures |Pairs(order, tags)| == |order|
  {
    if order != [] {
      PairsCover(order[1..], tags);
      assert forall k :: k in order <==> k == order[0] || k in order[1..];
    }
  }

  lemma {:induction false} ToMapEntries(pieces: seq<string>, tags: Tags)
    requires forall k :: k in tags ==> ':' !in k
    requires forall p :: p in pieces ==> IsEntry(p, tags)
    ensures forall k :: k in ToMap(pieces) <==> k in tags && Pair(k, tags[k]) in pieces
    ensures forall k :: k in ToMap(pieces) ==> k in tags && ToMap(pieces)[k] == tags[k]
  {
    if pieces != [] {
      var p := pieces[0];
      assert p in pieces && forall q :: q in pieces[1..] ==> q in pieces;
      var k :| k in tags && p == Pair(k, tags[k]);
      ToMapEntries(pieces[1..], tags);
      FirstOfConcat(k, tags[k], ':');
      assert p == k + [':'] + tags[k];
      assert p[..|k|] == k && p[|k| + 1..] == tags[k];
      forall k' | k' in tags && Pair(k', tags[k']) == p
        ensures k' == k
      {
        FirstOfConcat(k', tags[k'], ':');
        assert Pair(k', tags[k']) == k' + [':'] + tags[k'];
        assert p[..|k'|] == k';
      }
    }
  }

  lemma ToMapUndoes(pieces: seq<string>, tags: Tags)
    requires Covers(pieces, tags) && forall k :: k in tags ==> ':' !in k
    ensures ToMap(pieces) == tags
  {
    ToMapEntries(pieces, tags);
  }

  lemma {:induction false} JoinChars(pieces: seq<string>, c: char)
    requires c != ' ' && forall p :: p in pieces ==> c !in p
    ensures c !in Join(pieces, ' ')
  {
    if |pieces| > 1 {
      JoinChars(pieces[1..], c);
    }
  }

  lemma JoinIsEmpty(pieces: seq<string>)
    requires forall p :: p in pieces ==> p != []
    ensures Join(pieces, ' ') == [] <==> pieces == []
  {
    if pieces != [] {
      assert pieces[0] in pieces;
    }
  }

  lemma DecodeFormat(id: string, ty: string, slice: seq<string>)
    requires ':' !in ty && '[' !in Join(slice, ' ')
    ensures var body := Join(slice, ' ');
            Decode(Format(id, ty, slice)) == Some((id, ty, if body == [] then map[] else ToMap(Split(body, ' '))))
  {
    var body, key, head := Join(slice, ' '), Format(id, ty, slice), Head(id, ty);
    Parts(head, body);
    LastOfConcat(head + ":", body + "]", '[');
    HeadParts(id, ty);
  }

  lemma Parts(head: string, body: string)
    ensures var key := head + ":" + "[" + body + "]";
            && key == (head + ":") + ['['] + (body + "]")
            && |key| == |head| + |body| + 3
            && key[..|head|] == head && key[|head| + 2..|key| - 1] == body
  {
  }

  lemma HeadParts(id: string, ty: string)
    requires ':' !in ty
    ensures var head := Head(id, ty);
            Last(head, ':') == Some(|id|) && head[..|id|] == id && head[|id| + 1..] == ty
  {
    assert Head(id, ty) == id + [':'] + ty;
    LastOfConcat(id, ty, ':');
  }

  /** The decoder recovers the id, the type and the tag map from the key. */
  lemma RoundTrip(id: string, ty: string, tags: Tags, order: seq<string>)
    requires Decodable(ty, tags) && Iterates(order, tags)
    ensures Decode(KeyFor(id, ty, tags, order)) == Some((id, ty, tags))
  {
    var pieces := Sort(Pairs(order, tags));
    SortedPairsCover(order, tags);
    JoinChars(pieces, '[');
    JoinIsEmpty(pieces);
    DecodeFormat(id, ty, pieces);
    if pieces != [] {
      SplitJoin(pieces, ' ');
    }
    ToMapUndoes(pieces, tags);
  }

  lemma SortedPairsCover(order: seq<string>, tags: Tags)
    requires Decodable("", tags) && Iterates(order, tags)
    ensures var pieces := Sort(Pairs(order, tags));
            Covers(pieces, tags) && forall p :: p in pieces ==> Plain(p) && p != []
  {
    PairsCover(order, tags);
    SortHasSameElements(Pairs(order, tags));
    forall p | p in Pairs(order, tags)
      ensures IsEntry(p, tags) && Plain(p) && p != []
    {
      var k :| k in order && p == Pair(k, tags[k]);
      assert k in tags;
    }
  }

  /** Distinct metrics have distinct keys. */
  lemma KeyIsInjective(id1: string, ty1: string, tags1: Tags, order1: seq<string>,
                       id2: string, ty2: string, tags2: Tags, order2: seq<string>)
    requires Decodable(ty1, tags1) && Decodable(ty2, tags2)
    requires Iterates(order1, tags1) && Iterates(order2, tags2)
    requires KeyFor(id1, ty1, tags1, order1) == KeyFor(id2, ty2, tags2, order2)
    ensures id1 == id2 && ty1 == ty2 && tags1 == tags2
  {
    RoundTrip(id1, ty1, tags1, order1);
    RoundTrip(id2, ty2, tags2, order2);
  }

  // ---------------------------------------------------------------- tags as the registry makes them

  predicate ValidInKey(c: char) {
    'a' <= c <= 'z' || '0' <= c <= '9' || c == '_' || c == '-' || c == '.' || c == '/'
  }

  predicate ValidInValue(c: char) {
    ValidInKey(c) || c == ':'
  }

  /** The lower-casing of a string with every invalid character replaced, or the string itself when all
      its characters are valid. */
  function Normalize(s: string, valid: char -> bool, lower: char -> char): string {
    if forall i :: 0 <= i < |s| ==> valid(s[i]) then s
    else seq(|s|, i requires 0 <= i < |s| => if valid(lower(s[i])) then lower(s[i]) else '_')
  }

  /** A tag map whose entries went through the tag constructor. */
  ghost predicate FromRegistry(tags: Tags, lower: char -> char) {
    forall k :: k in tags ==>
      && (exists raw :: k == Normalize(raw, ValidInKey, lower))
      && (exists raw :: tags[k] == Normalize(raw, ValidInValue, lower))
  }

  lemma NormalizedIsValid(s: string, valid: char -> bool, lower: char -> char)
    requires valid('_')
    ensures forall c :: c in Normalize(s, valid, lower) ==> valid(c)
  {
  }

  /** Every tag map the registry can hand out is decodable for the three metric types that are keyed,
      whatever lower-casing does, so their keys are injective without further conditions. */
  lemma RegistryTagsAreDecodable(ty: string, tags: Tags, lower: char -> char)
    requires ty == "meter" || ty == "timer" || ty == "histogram"
    requires FromRegistry(tags, lower)
    ensures Decodable(ty, tags)
  {
    forall k | k in tags
      ensures ':' !in k && Plain(k) && Plain(tags[k])
    {
      var rawKey :| k == Normalize(rawKey, ValidInKey, lower);
      var rawValue :| tags[k] == Normalize(rawValue, ValidInValue, lower);
      NormalizedIsValid(rawKey, ValidInKey, lower);
      NormalizedIsValid(rawValue, ValidInValue, lower);
    }
  }
}
