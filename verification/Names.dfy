/** The names under which one object is known: the resource path of its
    messages, its key in the node store, its key in the edge's meta table and
    the name of its ObjectSync record. */
module Names {
  import opened Strings

  /** An object by namespace, resource type and name. */
  datatype Ref = Ref(namespace: string, kind: string, name: string)

  /** Path components as Kubernetes issues them. */
  predicate Plain(ref: Ref)
  {
    '/' !in ref.namespace && '/' !in ref.kind && '/' !in ref.name &&
    ref.namespace != "" && ref.kind != "" && ref.name != ""
  }

  // ---- Resource paths of messages ----

  /** The resource path a controller puts on a message to a node; a node,
      namespace or type left empty is an error. */
  function BuildResource(node: string, ref: Ref): Option<string>
  {
    if ref.namespace == "" || ref.kind == "" || node == "" then None
    else
      var path := "node" + "/" + node + "/" + ref.namespace + "/" + ref.kind;
      Some(if ref.name != "" then path + "/" + ref.name else path)
  }

  function ElementAt(resource: string, index: nat): string
  {
    var parts := Split(resource, '/');
    if |parts| <= index then "" else parts[index]
  }

  /** The node a dispatched message is for: the component after the first
      component "node" that has a non-empty successor. */
  function NodeIdFrom(parts: seq<string>): Option<string>
    decreases |parts|
  {
    if |parts| < 2 then None
    else if parts[0] == "node" && parts[1] != "" then Some(parts[1])
    else NodeIdFrom(parts[1..])
  }

  function NodeId(resource: string): Option<string>
  {
    NodeIdFrom(Split(resource, '/'))
  }

  /** The key of a message in the node store. */
  function StoreKey(resource: string): string
  {
    Join([ElementAt(resource, 3), ElementAt(resource, 2), ElementAt(resource, 4)], '/')
  }

  predicate HasPrefix(s: string, prefix: string)
  {
    |prefix| <= |s| && s[..|prefix|] == prefix
  }

  /** The path left on the copy that is sent: the node is cut off. */
  function Trimmed(resource: string): string
  {
    var parts := Split(resource, '/');
    if HasPrefix(resource, "node") && |parts| >= 3 then Join(parts[2..], '/') else resource
  }

  /** A path is built exactly when node, namespace and type are given; without a
      name it ends with the type. */
  lemma BuiltIff(node: string, ref: Ref)
    ensures BuildResource(node, ref).Some? <==> node != "" && ref.namespace != "" && ref.kind != ""
    ensures BuildResource(node, ref).Some? && ref.name == "" ==>
              BuildResource(node, ref).value == "node/" + node + "/" + ref.namespace + "/" + ref.kind
  {
    if node != "" {
      assert "node" + "/" + node == "node/" + node;
    }
  }

  /** A node is found exactly when some component "node" is followed by one that is
      not empty. */
  lemma {:induction false} NodeFoundIff(parts: seq<string>)
    ensures NodeIdFrom(parts).Some? <==> exists i | 0 <= i < |parts| - 1 :: IsNodeAt(parts, i)
  {
    if |parts| >= 2 {
      NodeFoundIff(parts[1..]);
      if i :| 0 <= i < |parts| - 1 && IsNodeAt(parts, i) {
        if i > 0 { assert IsNodeAt(parts[1..], i - 1); }
      }
      if i :| 0 <= i < |parts[1..]| - 1 && IsNodeAt(parts[1..], i) {
        assert IsNodeAt(parts, i + 1);
      }
      assert parts[0] == "node" && parts[1] != "" ==> IsNodeAt(parts, 0);
    }
  }

  predicate IsNodeAt(parts: seq<string>, i: nat)
  {
    i + 1 < |parts| && parts[i] == "node" && parts[i + 1] != ""
  }

  /** Only a path that begins with a node, and has something behind it, is cut. */
  lemma TrimmedIff(resource: string)
    ensures |Split(resource, '/')| >= 3 && HasPrefix(resource, "node") ==>
              Split(resource, '/')[2..] == Split(Trimmed(resource), '/')
    ensures |Split(resource, '/')| < 3 || !HasPrefix(resource, "node") ==> Trimmed(resource) == resource
  {
    hide Split, Join;
    var parts := Split(resource, '/');
    if |parts| >= 3 {
      SplitFree(resource, '/');
      SplitJoin(parts[2..], '/');
    }
  }

  lemma PathParts(node: string, ref: Ref)
    requires Plain(ref) && node != "" && '/' !in node
    ensures BuildResource(node, ref).Some?
    ensures Split(BuildResource(node, ref).value, '/') == ["node", node, ref.namespace, ref.kind, ref.name]
  {
    hide Split;
    var p1 := "node" + "/" + node;
    var p2 := p1 + "/" + ref.namespace;
    var p3 := p2 + "/" + ref.kind;
    SplitPlain("node", '/'); SplitPlain(node, '/');
    SplitPlain(ref.namespace, '/'); SplitPlain(ref.kind, '/'); SplitPlain(ref.name, '/');
    SplitConcat("node", node, '/');
    SplitConcat(p1, ref.namespace, '/');
    SplitConcat(p2, ref.kind, '/');
    SplitConcat(p3, ref.name, '/');
  }

  /** One built path carries all three names of its object, and the key in the
      store and the key in the meta table each determine the object. */
  lemma ResourceNames(node: string, ref: Ref)
    requires Plain(ref) && node != "" && '/' !in node
    ensures BuildResource(node, ref).Some?
    ensures var path := BuildResource(node, ref).value;
            && NodeId(path) == Some(node)
            && Split(StoreKey(path), '/') == [ref.kind, ref.namespace, ref.name]
            && Split(Trimmed(path), '/') == [ref.namespace, ref.kind, ref.name]
  {
    hide Split, Join;
    var path := BuildResource(node, ref).value;
    PathParts(node, ref);
    assert path[..4] == "node";
    SplitJoin([ref.kind, ref.namespace, ref.name], '/');
    assert ["node", node, ref.namespace, ref.kind, ref.name][2..] == [ref.namespace, ref.kind, ref.name];
    SplitJoin([ref.namespace, ref.kind, ref.name], '/');
  }

  /** Two objects share a store key exactly when they share a meta row, which
      is exactly when they are the same object: a store entry and a meta row
      stand for one object each. */
  lemma SameKeyIffSameRow(node: string, a: Ref, b: Ref)
    requires Plain(a) && Plain(b) && node != "" && '/' !in node
    ensures var x := BuildResource(node, a).value; var y := BuildResource(node, b).value;
            && (StoreKey(x) == StoreKey(y) <==> a == b)
            && (Trimmed(x) == Trimmed(y) <==> a == b)
  {
    hide *;
    ResourceNames(node, a);
    ResourceNames(node, b);
    assert [a.kind, a.namespace, a.name] == [b.kind, b.namespace, b.name] ==> a == b by {
      assert [a.kind, a.namespace, a.name][0] == a.kind && [b.kind, b.namespace, b.name][0] == b.kind;
      assert [a.kind, a.namespace, a.name][1] == a.namespace && [b.kind, b.namespace, b.name][1] == b.namespace;
      assert [a.kind, a.namespace, a.name][2] == a.name && [b.kind, b.namespace, b.name][2] == b.name;
    }
    assert [a.namespace, a.kind, a.name] == [b.namespace, b.kind, b.name] ==> a == b by {
      assert [a.namespace, a.kind, a.name][0] == a.namespace && [b.namespace, b.kind, b.name][0] == b.namespace;
      assert [a.namespace, a.kind, a.name][1] == a.kind && [b.namespace, b.kind, b.name][1] == b.kind;
      assert [a.namespace, a.kind, a.name][2] == a.name && [b.namespace, b.kind, b.name][2] == b.name;
    }
  }

  // ---- ObjectSync names ----

  function BuildObjectSyncName(node: string, uid: string): string
  {
    node + "." + uid
  }

  function SyncNodeName(name: string): string
  {
    var parts := Split(name, '.');
    Join(parts[..|parts| - 1], '.')
  }

  function SyncObjectUid(name: string): string
  {
    var parts := Split(name, '.');
    parts[|parts| - 1]
  }

  /** Node and UID are read back from a record's name exactly when the UID has
      no dot; the node name may have any number of them. */
  lemma SyncNameRoundTrip(node: string, uid: string)
    ensures SyncObjectUid(BuildObjectSyncName(node, uid)) == uid <==> '.' !in uid
    ensures SyncNodeName(BuildObjectSyncName(node, uid)) == node <==> '.' !in uid
  {
    var name := BuildObjectSyncName(node, uid);
    var n, u := Split(node, '.'), Split(uid, '.');
    SplitConcat(node, uid, '.');
    JoinSplit(node, '.');
    if '.' !in uid {
      SplitPlain(uid, '.');
      assert (n + u)[..|n + u| - 1] == n;
    } else {
      SplitFree(uid, '.');
      if |u| == 1 { JoinSplit(uid, '.'); }
      var front := (n + u)[..|n + u| - 1];
      assert front == n + u[..|u| - 1];
      if Join(front, '.') == node {
        SplitFree(node, '.');
        SplitJoin(front, '.');
      }
    }
  }
}
