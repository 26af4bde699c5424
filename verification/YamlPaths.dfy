/** What decryption does to the node at every path of a document (witchcraft/witchcraft.go:1257-1278), with the kind
    and the cipher spelled out. */
module YamlPaths {
  import opened YamlDecrypt

  /** The node that a sequence of child positions leads to; nil when there is none. */
  function NodeAt(t: Tree, path: seq<nat>): Tree
    decreases |path|
  {
    if path == [] then t
    else if t.Tree? && path[0] < |t.content| then NodeAt(t.content[path[0]], path[1..])
    else Nil
  }

  lemma {:induction false} OkBelow<K>(c: Cipher<K>, key: K, ts: seq<Tree>, n: nat, i: nat)
    requires i < n <= |ts| && DecryptTo(c, key, ts, n).ok
    ensures Decrypt(c, key, ts[i]).ok && DecryptTo(c, key, ts, n).result[i] == Decrypt(c, key, ts[i]).result
    decreases n
  {
    if i < n - 1 {
      OkBelow(c, key, ts, n - 1, i);
    }
  }

  /** After success, the same paths lead to nodes of the same kinds with as many children; a scalar that held an
      encrypted value holds its decryption, every other node its old value, and no scalar an encrypted one. */
  lemma {:induction false} SuccessByPath<K>(c: Cipher<K>, key: K, t: Tree, path: seq<nat>)
    requires Decrypt(c, key, t).ok
    ensures var was, now := NodeAt(t, path), NodeAt(Decrypt(c, key, t).result, path);
            && (was.Tree? <==> now.Tree?)
            && (was.Tree? ==>
                  && now.kind == was.kind && |now.content| == |was.content|
                  && now.value == (if was.kind == Scalar && c.contains(was.value)
                                   then c.decrypt(key, was.value) else was.value)
                  && !(now.kind == Scalar && c.contains(now.value)))
    decreases |path|
  {
    if t.Tree? && path != [] && path[0] < |t.content| {
      OkBelow(c, key, t.content, |t.content|, path[0]);
      SuccessByPath(c, key, t.content[path[0]], path[1..]);
    }
  }

  /** The path leads to a scalar that holds an encrypted value and whose decryption does, too. */
  predicate StuckAt<K>(c: Cipher<K>, key: K, t: Tree, path: seq<nat>) {
    var at := NodeAt(t, path);
    at.Tree? && at.kind == Scalar && c.contains(at.value) && c.contains(c.decrypt(key, at.value))
  }

  lemma {:induction false} FailureIsSomewhere<K>(c: Cipher<K>, key: K, t: Tree)
    requires !Decrypt(c, key, t).ok
    ensures exists path :: StuckAt(c, key, t, path)
    decreases t, 0
  {
    if Stuck(c, key, Entry(t.kind, t.value)) {
      assert StuckAt(c, key, t, []);
    } else {
      FailureIsBelow(c, key, t.content, |t.content|);
      var i: nat, path :| i < |t.content| && StuckAt(c, key, t.content[i], path);
      assert ([i] + path)[1..] == path;
      assert StuckAt(c, key, t, [i] + path);
    }
  }

  lemma {:induction false} FailureIsBelow<K>(c: Cipher<K>, key: K, ts: seq<Tree>, n: nat)
    requires n <= |ts| && !DecryptTo(c, key, ts, n).ok
    ensures exists i: nat, path :: i < n && StuckAt(c, key, ts[i], path)
    decreases ts, n
  {
    if DecryptTo(c, key, ts, n - 1).ok {
      FailureIsSomewhere(c, key, ts[n - 1]);
    } else {
      FailureIsBelow(c, key, ts, n - 1);
    }
  }

  /** Success if and only if no path leads to a scalar that holds an encrypted value and whose decryption does, too. */
  lemma OkByPath<K>(c: Cipher<K>, key: K, t: Tree)
    ensures Decrypt(c, key, t).ok <==> forall path :: !StuckAt(c, key, t, path)
  {
    if Decrypt(c, key, t).ok {
      forall path
        ensures !StuckAt(c, key, t, path)
      {
        SuccessByPath(c, key, t, path);
      }
    } else {
      FailureIsSomewhere(c, key, t);
    }
  }

  /** The same over the nodes in document order. */
  lemma SuccessByEntry<K>(c: Cipher<K>, key: K, t: Tree)
    ensures var r, was := Decrypt(c, key, t), Entries(t);
            && (r.ok <==> forall i :: 0 <= i < |was| && was[i].kind == Scalar ==>
                            !(c.contains(was[i].value) && c.contains(c.decrypt(key, was[i].value))))
            && (r.ok ==> |Entries(r.result)| == |was| && forall i :: 0 <= i < |was| ==>
                 var now := Entries(r.result)[i];
                 && now.kind == was[i].kind && !(now.kind == Scalar && c.contains(now.value))
                 && now.value == if was[i].kind == Scalar && c.contains(was[i].value)
                                 then c.decrypt(key, was[i].value) else was[i].value)
  {
    DecryptsInOrder(c, key, t);
    if Decrypt(c, key, t).ok {
      OpenedEntries(c, key, Entries(t));
    }
  }
}
