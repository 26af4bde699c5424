/** Decrypting the encrypted values of a configuration file, in place on the parsed YAML nodes
    (witchcraft/witchcraft.go:1209-1278). */
module YamlDecrypt {
  type Bytes = string

  datatype Kind = Document | Sequence | Mapping | Scalar | Alias

  /** The value of a node and of everything below it. */
  datatype Tree = Nil | Tree(kind: Kind, value: string, content: seq<Tree>)

  /** The encrypted-config-value library: detection and decryption of every value in a text under a key. */
  datatype Cipher<!K> = Cipher(contains: string -> bool, decrypt: (K, string) -> string)

  // ---------------------------------------------------------------- the meaning

  /** A node without its children. */
  datatype Entry = Entry(kind: Kind, value: string)

  predicate Encrypted<K>(c: Cipher<K>, e: Entry) {
    e.kind == Scalar && c.contains(e.value)
  }

  /** An encrypted scalar that decryption does not rid of encrypted values. */
  predicate Stuck<K>(c: Cipher<K>, key: K, e: Entry) {
    Encrypted(c, e) && c.contains(c.decrypt(key, e.value))
  }

  function Opened<K>(c: Cipher<K>, key: K, e: Entry): Entry {
    if Encrypted(c, e) then e.(value := c.decrypt(key, e.value)) else e
  }

  predicate AllOpen<K>(c: Cipher<K>, key: K, es: seq<Entry>) {
    forall i :: 0 <= i < |es| ==> !Stuck(c, key, es[i])
  }

  /** Every entry up to the first stuck one is opened; that one and the rest stay. */
  function OpenUntilStuck<K>(c: Cipher<K>, key: K, es: seq<Entry>): seq<Entry> {
    if es == [] || Stuck(c, key, es[0]) then es
    else [Opened(c, key, es[0])] + OpenUntilStuck(c, key, es[1..])
  }

  /** All nodes of a tree in document order. */
  function Entries(t: Tree): seq<Entry> {
    match t
    case Nil => []
    case Tree(kind, value, content) => [Entry(kind, value)] + EntriesTo(content, |content|)
  }

  function EntriesTo(ts: seq<Tree>, n: nat): seq<Entry>
    requires n <= |ts|
    decreases ts, n
  {
    if n == 0 then [] else EntriesTo(ts, n - 1) + Entries(ts[n - 1])
  }

  predicate SameShape(a: Tree, b: Tree) {
    match a
    case Nil => b == Nil
    case Tree(kind, _, content) =>
      b.Tree? && b.kind == kind && |b.content| == |content| &&
      forall i :: 0 <= i < |content| ==> SameShape(content[i], b.content[i])
  }

  /** The tree with every encrypted scalar decrypted. */
  function OpenedTree<K>(c: Cipher<K>, key: K, t: Tree): Tree {
    match t
    case Nil => Nil
    case Tree(kind, value, content) =>
      Tree(kind, Opened(c, key, Entry(kind, value)).value,
          seq(|content|, i requires 0 <= i < |content| => OpenedTree(c, key, content[i])))
  }

  // ---------------------------------------------------------------- the recursion, on values

  /** What a call leaves behind, and whether it succeeded. */
  datatype Outcome<T> = Outcome(result: T, ok: bool)

  function Decrypt<K>(c: Cipher<K>, key: K, t: Tree): Outcome<Tree>
    decreases t, 0
  {
    if t == Nil then Outcome(t, true)
    else if Stuck(c, key, Entry(t.kind, t.value)) then Outcome(t, false)
    else
      var below := DecryptTo(c, key, t.content, |t.content|);
      Outcome(Tree(t.kind, Opened(c, key, Entry(t.kind, t.value)).value, below.result), below.ok)
  }

  /** The children after the first n turns of the loop. */
  function DecryptTo<K>(c: Cipher<K>, key: K, ts: seq<Tree>, n: nat): (r: Outcome<seq<Tree>>)
    requires n <= |ts|
    ensures |r.result| == |ts|
    ensures forall i :: n <= i < |ts| ==> r.result[i] == ts[i]
    decreases ts, n
  {
    if n == 0 then Outcome(ts, true)
    else
      var before := DecryptTo(c, key, ts, n - 1);
      if !before.ok then before
      else
        var child := Decrypt(c, key, ts[n - 1]);
        Outcome(before.result[n - 1 := child.result], child.ok)
  }

  /** A loop that has failed stays as it is. */
  lemma {:induction false} FailureIsFinal<K>(c: Cipher<K>, key: K, ts: seq<Tree>, n: nat, m: nat)
    requires n <= m <= |ts| && !DecryptTo(c, key, ts, n).ok
    ensures DecryptTo(c, key, ts, m) == DecryptTo(c, key, ts, n)
    decreases m
  {
    if n < m {
      FailureIsFinal(c, key, ts, n, m - 1);
    }
  }

  // ---------------------------------------------------------------- what the recursion achieves

  lemma AllOpenConcat<K>(c: Cipher<K>, key: K, xs: seq<Entry>, ys: seq<Entry>)
    ensures AllOpen(c, key, xs + ys) <==> AllOpen(c, key, xs) && AllOpen(c, key, ys)
  {
    var es := xs + ys;
    assert forall i :: 0 <= i < |xs| ==> es[i] == xs[i];
    assert forall i :: 0 <= i < |ys| ==> es[|xs| + i] == ys[i];
  }

  lemma AllOpenTail<K>(c: Cipher<K>, key: K, xs: seq<Entry>)
    requires xs != []
    ensures AllOpen(c, key, xs) <==> !Stuck(c, key, xs[0]) && AllOpen(c, key, xs[1..])
  {
    assert forall i :: 0 <= i < |xs| - 1 ==> xs[1..][i] == xs[i + 1];
  }

  lemma Regroup<T>(a: seq<T>, b: seq<T>, c: seq<T>)
    ensures a + (b + c) == (a + b) + c
  {
  }

  lemma {:induction false} OpenConcat<K>(c: Cipher<K>, key: K, xs: seq<Entry>, ys: seq<Entry>)
    ensures OpenUntilStuck(c, key, xs + ys) ==
            OpenUntilStuck(c, key, xs) + if AllOpen(c, key, xs) then OpenUntilStuck(c, key, ys) else ys
  {
    if xs == [] {
      assert xs + ys == ys;
    } else {
      AllOpenTail(c, key, xs);
      assert (xs + ys)[0] == xs[0] && (xs + ys)[1..] == xs[1..] + ys;
      if !Stuck(c, key, xs[0]) {
        OpenConcat(c, key, xs[1..], ys);
        Regroup([Opened(c, key, xs[0])], OpenUntilStuck(c, key, xs[1..]),
                if AllOpen(c, key, xs) then OpenUntilStuck(c, key, ys) else ys);
      }
    }
  }

  lemma {:induction false} EntriesOfPrefix(a: seq<Tree>, b: seq<Tree>, n: nat)
    requires n <= |a| && n <= |b| && a[..n] == b[..n]
    ensures EntriesTo(a, n) == EntriesTo(b, n)
  {
    if n > 0 {
      assert a[..n - 1] == a[..n][..n - 1] && b[..n - 1] == b[..n][..n - 1];
      EntriesOfPrefix(a, b, n - 1);
      assert a[n - 1] == a[..n][n - 1] && b[n - 1] == b[..n][n - 1];
    }
  }

  /** In document order, a call decrypts every scalar before the first one that cannot be fully decrypted and
      leaves everything from there on alone; it succeeds when there is no such scalar. */
  lemma {:induction false} DecryptsInOrder<K>(c: Cipher<K>, key: K, t: Tree)
    ensures var r := Decrypt(c, key, t);
      && Entries(r.result) == OpenUntilStuck(c, key, Entries(t))
      && (r.ok <==> AllOpen(c, key, Entries(t)))
    decreases t, 0
  {
    if t.Tree? {
      var e := Entry(t.kind, t.value);
      DecryptsInOrderTo(c, key, t.content, |t.content|);
      OpenConcat(c, key, [e], EntriesTo(t.content, |t.content|));
      AllOpenConcat(c, key, [e], EntriesTo(t.content, |t.content|));
      assert OpenUntilStuck(c, key, [e]) == if Stuck(c, key, e) then [e] else [Opened(c, key, e)];
      assert AllOpen(c, key, [e]) <==> !Stuck(c, key, e) by {
        assert [e][0] == e;
      }
    }
  }

  lemma {:induction false} DecryptsInOrderTo<K>(c: Cipher<K>, key: K, ts: seq<Tree>, n: nat)
    requires n <= |ts|
    ensures var r := DecryptTo(c, key, ts, n);
      && EntriesTo(r.result, n) == OpenUntilStuck(c, key, EntriesTo(ts, n))
      && (r.ok <==> AllOpen(c, key, EntriesTo(ts, n)))
    decreases ts, n
  {
    if n > 0 {
      DecryptsInOrderTo(c, key, ts, n - 1);
      OpenConcat(c, key, EntriesTo(ts, n - 1), Entries(ts[n - 1]));
      AllOpenConcat(c, key, EntriesTo(ts, n - 1), Entries(ts[n - 1]));
      var before := DecryptTo(c, key, ts, n - 1);
      if before.ok {
        DecryptsInOrder(c, key, ts[n - 1]);
        EntriesOfUpdated(before.result, n, Decrypt(c, key, ts[n - 1]).result);
      }
    }
  }

  /** The entries of the first n children after the last of them has been replaced. */
  lemma EntriesOfUpdated(ts: seq<Tree>, n: nat, t: Tree)
    requires 0 < n <= |ts|
    ensures EntriesTo(ts[n - 1 := t], n) == EntriesTo(ts, n - 1) + Entries(t)
  {
    assert ts[n - 1 := t][..n - 1] == ts[..n - 1];
    EntriesOfPrefix(ts[n - 1 := t], ts, n - 1);
  }

  /** The shape and every kind stay, on failure too. */
  lemma {:induction false} ShapeStays<K>(c: Cipher<K>, key: K, t: Tree)
    ensures SameShape(t, Decrypt(c, key, t).result)
    decreases t, 0
  {
    if t.Tree? {
      ShapeStaysBelow(c, key, t.content, |t.content|);
      ShapeIsReflexive(t);
    }
  }

  lemma {:induction false} ShapeStaysBelow<K>(c: Cipher<K>, key: K, ts: seq<Tree>, n: nat)
    requires n <= |ts|
    ensures forall i :: 0 <= i < |ts| ==> SameShape(ts[i], DecryptTo(c, key, ts, n).result[i])
    decreases ts, n
  {
    if n == 0 {
      forall i | 0 <= i < |ts|
        ensures SameShape(ts[i], ts[i])
      {
        ShapeIsReflexive(ts[i]);
      }
    } else {
      ShapeStaysBelow(c, key, ts, n - 1);
      ShapeStays(c, key, ts[n - 1]);
    }
  }

  lemma {:induction false} ShapeIsReflexive(t: Tree)
    ensures SameShape(t, t)
  {
    if t.Tree? {
      forall i | 0 <= i < |t.content|
        ensures SameShape(t.content[i], t.content[i])
      {
        ShapeIsReflexive(t.content[i]);
      }
    }
  }

  /** On success the result is the tree with every encrypted scalar decrypted. */
  lemma {:induction false} SuccessOpensAll<K>(c: Cipher<K>, key: K, t: Tree)
    requires Decrypt(c, key, t).ok
    ensures Decrypt(c, key, t).result == OpenedTree(c, key, t)
    decreases t, 0
  {
    if t.Tree? {
      forall i | 0 <= i < |t.content|
        ensures DecryptTo(c, key, t.content, |t.content|).result[i] == OpenedTree(c, key, t.content[i])
      {
        SuccessOpensChild(c, key, t.content, |t.content|, i);
      }
      assert DecryptTo(c, key, t.content, |t.content|).result == OpenedTree(c, key, t).content;
    }
  }

  lemma {:induction false} SuccessOpensChild<K>(c: Cipher<K>, key: K, ts: seq<Tree>, n: nat, i: nat)
    requires i < n <= |ts| && DecryptTo(c, key, ts, n).ok
    ensures DecryptTo(c, key, ts, n).result[i] == OpenedTree(c, key, ts[i])
    decreases ts, n
  {
    if i == n - 1 {
      SuccessOpensAll(c, key, ts[i]);
    } else {
      SuccessOpensChild(c, key, ts, n - 1, i);
    }
  }

  ghost predicate NothingEncrypted<K>(c: Cipher<K>, t: Tree) {
    forall i :: 0 <= i < |Entries(t)| ==> !Encrypted(c, Entries(t)[i])
  }

  lemma {:induction false} OpenedEntries<K>(c: Cipher<K>, key: K, es: seq<Entry>)
    requires AllOpen(c, key, es)
    ensures |OpenUntilStuck(c, key, es)| == |es|
    ensures forall i :: 0 <= i < |es| ==> OpenUntilStuck(c, key, es)[i] == Opened(c, key, es[i])
  {
    if es != [] {
      assert forall i :: 0 <= i < |es[1..]| ==> es[1..][i] == es[i + 1];
      OpenedEntries(c, key, es[1..]);
    }
  }

  /** A successful call leaves no encrypted scalar. */
  lemma SuccessLeavesNothingEncrypted<K>(c: Cipher<K>, key: K, t: Tree)
    requires Decrypt(c, key, t).ok
    ensures NothingEncrypted(c, Decrypt(c, key, t).result)
  {
    DecryptsInOrder(c, key, t);
    OpenedEntries(c, key, Entries(t));
  }

  /** A tree without encrypted scalars is left as it is, under any key; so decryption is idempotent. */
  lemma {:induction false} NothingToDo<K>(c: Cipher<K>, key: K, t: Tree)
    requires NothingEncrypted(c, t)
    ensures Decrypt(c, key, t) == Outcome(t, true)
    decreases t, 0
  {
    if t.Tree? {
      assert Entries(t)[0] == Entry(t.kind, t.value);
      assert forall i :: 0 <= i < |EntriesTo(t.content, |t.content|)| ==>
          EntriesTo(t.content, |t.content|)[i] == Entries(t)[i + 1];
      NothingToDoBelow(c, key, t.content, |t.content|);
    }
  }

  lemma {:induction false} NothingToDoBelow<K>(c: Cipher<K>, key: K, ts: seq<Tree>, n: nat)
    requires n <= |ts|
    requires forall i :: 0 <= i < |EntriesTo(ts, n)| ==> !Encrypted(c, EntriesTo(ts, n)[i])
    ensures DecryptTo(c, key, ts, n) == Outcome(ts, true)
    decreases ts, n
  {
    if n > 0 {
      var before, last := EntriesTo(ts, n - 1), Entries(ts[n - 1]);
      assert EntriesTo(ts, n) == before + last;
      assert forall i :: 0 <= i < |before| ==> (before + last)[i] == before[i];
      assert forall i :: 0 <= i < |last| ==> (before + last)[|before| + i] == last[i];
      NothingToDoBelow(c, key, ts, n - 1);
      NothingToDo(c, key, ts[n - 1]);
      assert ts[n - 1 := ts[n - 1]] == ts;
    }
  }

  lemma DecryptIsIdempotent<K>(c: Cipher<K>, key: K, t: Tree)
    requires Decrypt(c, key, t).ok
    ensures forall other: K :: Decrypt(c, other, Decrypt(c, key, t).result) == Outcome(Decrypt(c, key, t).result, true)
  {
    SuccessLeavesNothingEncrypted(c, key, t);
    forall other: K
      ensures Decrypt(c, other, Decrypt(c, key, t).result) == Outcome(Decrypt(c, key, t).result, true)
    {
      NothingToDo(c, other, Decrypt(c, key, t).result);
    }
  }
}
