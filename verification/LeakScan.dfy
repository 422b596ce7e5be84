/**
 The scan of an action's result for credential material. Objects may be shared and may refer
 to each other in cycles; each is entered once, by identity.
 */
module LeakScan {

  /** What a reference can point at: text, the credential snapshot itself, an object, or anything else. */
  datatype Value = Text(text: string) | Snapshot | Ref(id: nat) | Opaque

  /** The objects the scan looks into. */
  datatype Object =
    | ActionResult(message: Value, artifacts: Value, data: Value)
    | ArtifactUpdate(artifactId: Value, kind: Value, locator: Value, metadata: Value)
    | Mapping(items: seq<(Value, Value)>)
    | Collection(elements: seq<Value>)

  type Graph = map<nat, Object>

  /** Key, value, key, value... in the order of the mapping. */
  function Flattened(items: seq<(Value, Value)>): seq<Value> {
    if items == [] then [] else [items[0].0, items[0].1] + Flattened(items[1..])
  }

  /** What the scan looks at next, in order. */
  function Children(o: Object): seq<Value> {
    match o
    case ActionResult(message, artifacts, data) => [message, artifacts, data]
    case ArtifactUpdate(artifactId, kind, locator, metadata) => [artifactId, kind, locator, metadata]
    case Mapping(items) => Flattened(items)
    case Collection(elements) => elements
  }

  ghost predicate InGraph(v: Value, graph: Graph) {
    v.Ref? ==> v.id in graph
  }

  /** Every reference leads to an object of the graph. */
  ghost predicate Closed(graph: Graph) {
    forall id :: id in graph ==> forall i :: 0 <= i < |Children(graph[id])| ==> InGraph(Children(graph[id])[i], graph)
  }

  predicate Within(secret: string, text: string) {
    secret <= text || (text != "" && Within(secret, text[1..]))
  }

  /** `in` on strings: the secret is a contiguous part of the text. */
  lemma {:induction false} WithinMeans(secret: string, text: string)
    ensures Within(secret, text) <==> exists i :: 0 <= i <= |text| && secret <= text[i..]
    decreases |text|
  {
    assert text[0..] == text;
    if text != "" {
      WithinMeans(secret, text[1..]);
      if i :| 0 <= i <= |text| - 1 && secret <= text[1..][i..] {
        assert text[1..][i..] == text[i + 1..];
      }
      if i :| 1 <= i <= |text| && secret <= text[i..] {
        assert text[1..][i - 1..] == text[i..];
      }
    }
  }

  predicate Exposes(text: string, secrets: seq<string>) {
    exists i :: 0 <= i < |secrets| && secrets[i] != "" && Within(secrets[i], text)
  }

  /** The snapshot itself, or a text holding a nonempty secret. */
  predicate Material(v: Value, secrets: seq<string>) {
    v.Snapshot? || (v.Text? && Exposes(v.text, secrets))
  }

  ghost predicate Leads(a: Value, b: Value, graph: Graph) {
    a.Ref? && a.id in graph && b in Children(graph[a.id])
  }

  /** A chain of references from one value to another. */
  ghost predicate Path(path: seq<Value>, from: Value, to: Value, graph: Graph) {
    && path != [] && path[0] == from && path[|path| - 1] == to
    && forall i :: 0 <= i < |path| - 1 ==> Leads(path[i], path[i + 1], graph)
  }

  /** Credential material can be reached from the value. */
  ghost predicate Leaks(v: Value, graph: Graph, secrets: seq<string>) {
    exists path, m :: Path(path, v, m, graph) && Material(m, secrets)
  }

  /** Nothing below these objects is material, and what they refer to has been entered. */
  ghost predicate Settled(entered: set<nat>, seen: set<nat>, graph: Graph, secrets: seq<string>) {
    forall id :: id in entered ==> id in graph && SettledUpTo(graph[id], |Children(graph[id])|, seen, secrets)
  }

  ghost predicate SettledUpTo(o: Object, k: nat, seen: set<nat>, secrets: seq<string>) {
    k <= |Children(o)| && forall i :: 0 <= i < k ==> Clear(Children(o)[i], seen, secrets)
  }

  ghost predicate Clear(v: Value, seen: set<nat>, secrets: seq<string>) {
    !Material(v, secrets) && (v.Ref? ==> v.id in seen)
  }

  lemma LeadsToLeak(v: Value, child: Value, graph: Graph, secrets: seq<string>)
    requires Leads(v, child, graph) && Leaks(child, graph, secrets)
    ensures Leaks(v, graph, secrets)
  {
    var path, m :| Path(path, child, m, graph) && Material(m, secrets);
    var longer := [v] + path;
    assert forall i :: 0 <= i < |longer| - 1 ==> longer[i + 1] == path[i];
    assert Path(longer, v, m, graph);
  }

  lemma MaterialLeaks(v: Value, graph: Graph, secrets: seq<string>)
    requires Material(v, secrets)
    ensures Leaks(v, graph, secrets)
  {
    assert Path([v], v, v, graph);
  }

  /** From a clear value whose entered objects are all settled, no path reaches material. */
  lemma {:induction false} SettledIsClean(path: seq<Value>, v: Value, m: Value, seen: set<nat>, graph: Graph, secrets: seq<string>)
    requires Path(path, v, m, graph) && Clear(v, seen, secrets) && Settled(seen, seen, graph, secrets)
    ensures !Material(m, secrets)
    decreases |path|
  {
    if |path| > 1 {
      assert Leads(path[0], path[1], graph);
      var rest := path[1..];
      forall i | 0 <= i < |rest| - 1 ensures Leads(rest[i], rest[i + 1], graph) {
        assert Leads(path[i + 1], path[i + 2], graph);
      }
      SettledIsClean(rest, path[1], m, seen, graph, secrets);
    }
  }

  /** The scan; `seen` is the shared set of entered objects. */
  class Scan {
    var seen: set<nat>

    constructor ()
      ensures seen == {}
    {
      seen := {};
    }

    /** Answers true only for a leak. Answering false, everything newly entered is settled. */
    method Contains(v: Value, graph: Graph, secrets: seq<string>) returns (found: bool)
      requires Closed(graph) && InGraph(v, graph) && seen <= graph.Keys
      modifies this
      ensures old(seen) <= seen <= graph.Keys
      ensures found ==> Leaks(v, graph, secrets)
      ensures !found ==> Clear(v, seen, secrets) && Settled(seen - old(seen), seen, graph, secrets)
      decreases graph.Keys - seen, 0
    {
      if v.Snapshot? || v.Text? {
        found := v.Snapshot? || Exposes(v.text, secrets);
        if found {
          MaterialLeaks(v, graph, secrets);
        }
        return;
      }
      if v.Opaque? || v.id in seen {
        return false;
      }
      seen := seen + {v.id};
      found := AnyChild(v, graph, secrets);
    }

    /** `any(...)` over the children of an object just entered. */
    method AnyChild(v: Value, graph: Graph, secrets: seq<string>) returns (found: bool)
      requires Closed(graph) && v.Ref? && v.id in seen && seen <= graph.Keys
      modifies this
      ensures old(seen) <= seen <= graph.Keys
      ensures found ==> Leaks(v, graph, secrets)
      ensures !found ==> Settled(seen - old(seen) + {v.id}, seen, graph, secrets)
      decreases graph.Keys - seen, 1
    {
      var children := Children(graph[v.id]);
      for i := 0 to |children|
        invariant old(seen) <= seen <= graph.Keys
        invariant Settled(seen - old(seen), seen, graph, secrets)
        invariant SettledUpTo(graph[v.id], i, seen, secrets)
      {
        assert InGraph(children[i], graph);
        ghost var before := seen;
        found := Contains(children[i], graph, secrets);
        if found {
          LeadsToLeak(v, children[i], graph, secrets);
          return;
        }
        SettledTogether(old(seen), before, seen, graph, secrets);
      }
      return false;
    }
  }

  lemma SettledTogether(first: set<nat>, before: set<nat>, after: set<nat>, graph: Graph, secrets: seq<string>)
    requires first <= before <= after
    requires Settled(before - first, before, graph, secrets) && Settled(after - before, after, graph, secrets)
    ensures Settled(after - first, after, graph, secrets)
  {
  }

  /** `_contains_credential_material`: ends on every finite graph, and answers exactly whether it leaks. */
  method ContainsCredentialMaterial(v: Value, graph: Graph, secrets: seq<string>) returns (found: bool)
    requires Closed(graph) && InGraph(v, graph)
    ensures found <==> Leaks(v, graph, secrets)
  {
    var scan := new Scan();
    found := scan.Contains(v, graph, secrets);
    if !found {
      assert scan.seen - {} == scan.seen;
      forall path, m | Path(path, v, m, graph) ensures !Material(m, secrets) {
        SettledIsClean(path, v, m, scan.seen, graph, secrets);
      }
    }
  }
}
