/** The in-place recursion over YAML nodes and the byte-level entry point around it
    (witchcraft/witchcraft.go:1216-1278), proved against the recursion on values. */
module YamlNodes {
  import opened Options
  import opened YamlDecrypt

  /** A parsed node. Only values are ever assigned; children form a tree, since an alias refers to its anchor
      outside of the content list. */
  class Node {
    const kind: Kind
    var value: string
    const content: seq<Node?>
    ghost const repr: set<Node>
    ghost const height: nat

    constructor (kind: Kind, value: string, content: seq<Node?>, ghost below: set<Node>, ghost height: nat)
      requires AreChildren(content, below, height)
      ensures WellFormed() && repr == below + {this}
      ensures this.kind == kind && this.value == value && this.content == content && this.height == height
    {
      this.kind, this.value, this.content := kind, value, content;
      this.repr, this.height := below + {this}, height;
    }

    ghost predicate WellFormed() {
      this in repr && AreChildren(content, repr - {this}, height)
    }
  }

  ghost function Footprint(n: Node?): set<Node> {
    if n == null then {} else n.repr
  }

  /** Subtrees of less than the given height, kept apart from each other within the given nodes. */
  ghost predicate AreChildren(content: seq<Node?>, below: set<Node>, height: nat)
    decreases height
  {
    && (forall i :: 0 <= i < |content| && content[i] != null ==>
          && content[i].height < height
          && content[i].repr <= below
          && content[i] in content[i].repr
          && AreChildren(content[i].content, content[i].repr - {content[i]}, content[i].height))
    && (forall i, j :: 0 <= i < j < |content| ==> Footprint(content[i]) !! Footprint(content[j]))
  }

  function TreeOf(n: Node?): Tree
    requires n != null ==> n.WellFormed()
    reads Footprint(n)
    decreases if n == null then 0 else n.height + 1, 0
  {
    if n == null then Nil else Tree(n.kind, n.value, ForestOf(n.content, n.repr - {n}, n.height))
  }

  function ForestOf(content: seq<Node?>, ghost below: set<Node>, ghost height: nat): (r: seq<Tree>)
    requires AreChildren(content, below, height)
    reads below
    ensures |r| == |content| && forall i :: 0 <= i < |content| ==>
                (content[i] != null ==> content[i].WellFormed()) && r[i] == TreeOf(content[i])
    decreases height, |content| + 1
  {
    if content == [] then []
    else
      ForestOf(content[..|content| - 1], below, height) + [TreeOf(content[|content| - 1])]
  }

  ghost function Height(n: Node?): nat {
    if n == null then 0 else n.height + 1
  }

  /** Decrypts a node and everything below it in place, stopping at the first failure: what is left in the
      nodes and the answer are those of the recursion on values. */
  method DecryptNodeValues<K>(c: Cipher<K>, key: K, n: Node?) returns (ok: bool)
    requires n != null ==> n.WellFormed()
    modifies Footprint(n)
    ensures Outcome(TreeOf(n), ok) == Decrypt(c, key, old(TreeOf(n)))
    decreases Height(n), 0
  {
    if n == null {
      return true;
    }
    if n.kind == Scalar && c.contains(n.value) {
      var decrypted := c.decrypt(key, n.value);
      if c.contains(decrypted) {
        return false;
      }
      n.value := decrypted;
    }
    ok := DecryptContent(c, key, n.content, n.repr - {n}, n.height);
  }

  /** The loop over the children. */
  method DecryptContent<K>(c: Cipher<K>, key: K, content: seq<Node?>, ghost below: set<Node>, ghost height: nat)
      returns (ok: bool)
    requires AreChildren(content, below, height)
    modifies below
    ensures Outcome(ForestOf(content, below, height), ok) == DecryptTo(c, key, old(ForestOf(content, below, height)),
            |content|)
    decreases height, 2
  {
    ghost var was := ForestOf(content, below, height);
    for i := 0 to |content|
      invariant Outcome(ForestOf(content, below, height), true) == DecryptTo(c, key, was, i)
    {
      ok := DecryptChild(c, key, content, below, height, i);
      if !ok {
        FailureIsFinal(c, key, was, i + 1, |was|);
        return;
      }
    }
    ok := true;
  }

  /** One turn of it: the other children stay as they are. */
  method DecryptChild<K>(c: Cipher<K>, key: K, content: seq<Node?>, ghost below: set<Node>, ghost height: nat, i: nat)
      returns (ok: bool)
    requires AreChildren(content, below, height) && i < |content|
    modifies Footprint(content[i])
    ensures var was := old(ForestOf(content, below, height)); var r := Decrypt(c, key, was[i]);
      ok == r.ok && ForestOf(content, below, height) == was[i := r.result]
    decreases height, 1
  {
    ghost var was := ForestOf(content, below, height);
    ok := DecryptNodeValues(c, key, content[i]);
    forall j | 0 <= j < |content| && j != i
      ensures ForestOf(content, below, height)[j] == was[j]
    {
      assert Footprint(content[j]) !! Footprint(content[i]);
    }
  }

  /** The nodes that unmarshalling allocates for a tree. */
  method Allocate(t: Tree) returns (n: Node?)
    ensures n != null ==> n.WellFormed()
    ensures fresh(Footprint(n)) && TreeOf(n) == t
    decreases t, 0
  {
    if t == Nil {
      return null;
    }
    var content, below, height := AllocateAll(t.content);
    n := new Node(t.kind, t.value, content, below, height);
    assert n.repr - {n} == below;
  }

  method AllocateAll(ts: seq<Tree>) returns (content: seq<Node?>, ghost below: set<Node>, ghost height: nat)
    ensures AreChildren(content, below, height) && fresh(below)
    ensures ForestOf(content, below, height) == ts
    decreases ts, 1
  {
    if ts == [] {
      return [], {}, 0;
    }
    content, below, height := AllocateAll(ts[..|ts| - 1]);
    var child := Allocate(ts[|ts| - 1]);
    ghost var wider, taller := below + Footprint(child), if Height(child) > height then Height(child) else height;
    ChildrenGrow(content, below, height, child, wider, taller);
    ForestGrows(content, below, height, child, wider, taller);
    content, below, height := content + [child], wider, taller;
  }

  lemma ChildrenGrow(content: seq<Node?>, below: set<Node>, height: nat, child: Node?, wider: set<Node>, taller: nat)
    requires AreChildren(content, below, height) && (child != null ==> child.WellFormed())
    requires below !! Footprint(child) && below + Footprint(child) == wider && height <= taller &&
             Height(child) <= taller
    ensures AreChildren(content + [child], wider, taller)
  {
  }

  lemma ForestGrows(content: seq<Node?>, below: set<Node>, height: nat, child: Node?, wider: set<Node>, taller: nat)
    requires AreChildren(content, below, height) && (child != null ==> child.WellFormed())
    requires AreChildren(content + [child], wider, taller)
    ensures ForestOf(content + [child], wider, taller) == ForestOf(content, below, height) + [TreeOf(child)]
  {
  }

  // ---------------------------------------------------------------- bytes

  /** What the key provider gives. */
  datatype Provider<K> = NoProvider | LoadFails | NoKey | Key(key: K)

  /** The YAML library: a parser and a printer, either of which may fail. */
  datatype Yaml = Yaml(parse: Bytes -> Option<Tree>, render: Tree -> Option<Bytes>)

  /** The bytes can be decrypted: the key is there, they parse, every encrypted scalar decrypts fully and
      the decrypted tree prints. */
  ghost predicate Decryptable<K>(c: Cipher<K>, yaml: Yaml, provider: Provider<K>, bytes: Bytes) {
    && provider.Key?
    && yaml.parse(bytes).Some?
    && AllOpen(c, provider.key, Entries(yaml.parse(bytes).value))
    && yaml.render(OpenedTree(c, provider.key, yaml.parse(bytes).value)).Some?
  }

  ghost function DecryptedBytes<K>(c: Cipher<K>, yaml: Yaml, provider: Provider<K>, bytes: Bytes): Bytes {
    if c.contains(bytes) && Decryptable(c, yaml, provider, bytes)
    then yaml.render(OpenedTree(c, provider.key, yaml.parse(bytes).value)).value
    else bytes
  }

  /** An error exactly when there is something encrypted that cannot be decrypted; the input bytes on every
      error path and when nothing is encrypted; otherwise the printed tree with every scalar decrypted. */
  method DecryptConfigBytes<K>(c: Cipher<K>, yaml: Yaml, provider: Provider<K>, bytes: Bytes)
      returns (out: Bytes, failed: bool)
    ensures failed <==> c.contains(bytes) && !Decryptable(c, yaml, provider, bytes)
    ensures failed || !c.contains(bytes) ==> out == bytes
    ensures out == DecryptedBytes(c, yaml, provider, bytes)
  {
    if !c.contains(bytes) {
      return bytes, false;
    }
    match provider {
      case NoProvider => return bytes, true;
      case LoadFails => return bytes, true;
      case NoKey => return bytes, true;
      case Key(key) =>
        var decrypted := DecryptYamlNodes(c, yaml, key, bytes);
        if decrypted.None? {
          return bytes, true;
        }
        return decrypted.value, false;
    }
  }

  method DecryptYamlNodes<K>(c: Cipher<K>, yaml: Yaml, key: K, bytes: Bytes) returns (r: Option<Bytes>)
    ensures r == if Decryptable(c, yaml, Key(key), bytes) then yaml.render(OpenedTree(c, key, yaml.parse(bytes).value))
            else None
  {
    var parsed := yaml.parse(bytes);
    if parsed.None? {
      return None;
    }
    DecryptsInOrder(c, key, parsed.value);
    var doc := Allocate(parsed.value);
    var ok := DecryptNodeValues(c, key, doc);
    if !ok {
      return None;
    }
    SuccessOpensAll(c, key, parsed.value);
    return yaml.render(TreeOf(doc));
  }

  /** With a printer whose output parses back to the same tree, decrypting decrypted bytes never fails and
      never changes the document. */
  lemma DecryptingTwice<K>(c: Cipher<K>, yaml: Yaml, provider: Provider<K>, bytes: Bytes)
    requires forall t :: yaml.render(t).Some? ==> yaml.parse(yaml.render(t).value) == Some(t)
    requires c.contains(bytes) && Decryptable(c, yaml, provider, bytes)
    ensures var once := DecryptedBytes(c, yaml, provider, bytes);
      && yaml.parse(once).Some? && NothingEncrypted(c, yaml.parse(once).value)
      && Decryptable(c, yaml, provider, once)
      && yaml.parse(DecryptedBytes(c, yaml, provider, once)) == yaml.parse(once)
  {
    var t := yaml.parse(bytes).value;
    var plain := OpenedTree(c, provider.key, t);
    DecryptsInOrder(c, provider.key, t);
    SuccessOpensAll(c, provider.key, t);
    SuccessLeavesNothingEncrypted(c, provider.key, t);
    NothingToDo(c, provider.key, plain);
    SuccessOpensAll(c, provider.key, plain);
    DecryptsInOrder(c, provider.key, plain);
  }
}
