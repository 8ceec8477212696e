/**
 * The first-seen map shared by `no-duplicate-imports` and
 * `no-duplicate-reference`: the at-rules are visited in order, each may
 * have a key (the imported URL, the referenced path); the first at-rule with
 * a key is stored under it, and every later one with the same key is
 * reported. The definitions take the key and the report as parameters.
 */
module FirstSeen {
  import opened Wrappers
  import opened Ast
  import opened Lint

  type Key = Node -> Option<string>

  /** One more element of a prefix. */
  lemma PrefixStep(ns: seq<Node>, i: nat)
    requires i < |ns|
    ensures ns[..i + 1] == ns[..i] + [ns[i]]
  {
  }

  /** The map after visiting `ns`: each key mapped to the first node that has it. */
  function Stored(ns: seq<Node>, key: Key): map<string, Node>
  {
    if ns == [] then map[]
    else
      var m := Stored(ns[..|ns| - 1], key);
      var k := key(ns[|ns| - 1]);
      if k.Some? && k.value !in m then m[k.value := ns[|ns| - 1]] else m
  }

  /** The report of the last node of `ns`, if its key was stored before it. */
  function LastReport(ns: seq<Node>, key: Key, report: (Node, string) -> Report): seq<Report>
    requires ns != []
  {
    var k := key(ns[|ns| - 1]);
    if k.Some? && k.value in Stored(ns[..|ns| - 1], key) then [report(ns[|ns| - 1], k.value)] else []
  }

  /** The reports of the whole visit, in order. */
  function Duplicates(ns: seq<Node>, key: Key, report: (Node, string) -> Report): seq<Report>
  {
    if ns == [] then [] else Duplicates(ns[..|ns| - 1], key, report) + LastReport(ns, key, report)
  }

  /** The number of nodes of `ns` that have a key. */
  function Keyed(ns: seq<Node>, key: Key): nat
  {
    if ns == [] then 0 else Keyed(ns[..|ns| - 1], key) + (if key(ns[|ns| - 1]).Some? then 1 else 0)
  }

  /** A stored key belongs to a node, the first node with that key, and that node is what is stored. */
  lemma {:induction false} StoredFind(ns: seq<Node>, key: Key, k: string) returns (i: nat)
    requires k in Stored(ns, key)
    ensures i < |ns| && key(ns[i]) == Some(k) && Stored(ns, key)[k] == ns[i]
    ensures forall j :: 0 <= j < i ==> key(ns[j]) != Some(k)
  {
    var init := ns[..|ns| - 1];
    if k in Stored(init, key) {
      i := StoredFind(init, key, k);
      assert init[i] == ns[i];
      assert forall j :: 0 <= j < i ==> init[j] == ns[j];
    } else {
      i := |ns| - 1;
      StoredAbsent(init, key, k);
      assert forall j :: 0 <= j < i ==> init[j] == ns[j];
    }
  }

  /** A key that was never stored belongs to no node. */
  lemma {:induction false} StoredAbsent(ns: seq<Node>, key: Key, k: string)
    requires k !in Stored(ns, key)
    ensures forall j :: 0 <= j < |ns| ==> key(ns[j]) != Some(k)
  {
    if ns != [] {
      var init := ns[..|ns| - 1];
      StoredAbsent(init, key, k);
      assert forall j :: 0 <= j < |init| ==> init[j] == ns[j];
    }
  }

  /** The key of every node is stored. */
  lemma StoredHas(ns: seq<Node>, key: Key, i: nat)
    requires i < |ns| && key(ns[i]).Some?
    ensures key(ns[i]).value in Stored(ns, key)
  {
    if key(ns[i]).value !in Stored(ns, key) {
      StoredAbsent(ns, key, key(ns[i]).value);
    }
  }

  /** The last node is reported iff an earlier node has the same key. */
  lemma LastReportIff(ns: seq<Node>, key: Key, report: (Node, string) -> Report)
    requires ns != []
    ensures var last := ns[|ns| - 1];
      LastReport(ns, key, report) != []
      <==> key(last).Some? && exists j :: 0 <= j < |ns| - 1 && key(ns[j]) == key(last)
    ensures LastReport(ns, key, report) != []
      ==> LastReport(ns, key, report) == [report(ns[|ns| - 1], key(ns[|ns| - 1]).value)]
  {
    var init := ns[..|ns| - 1];
    var last := ns[|ns| - 1];
    if key(last).Some? {
      if key(last).value in Stored(init, key) {
        var j := StoredFind(init, key, key(last).value);
        assert init[j] == ns[j];
      }
      if exists j :: 0 <= j < |ns| - 1 && key(ns[j]) == key(last) {
        var j :| 0 <= j < |ns| - 1 && key(ns[j]) == key(last);
        assert init[j] == ns[j];
        StoredHas(init, key, j);
      }
    }
  }

  /** Every keyed node is either stored or reported: the reports number the keyed nodes less the distinct keys. */
  lemma {:induction false} DuplicateCount(ns: seq<Node>, key: Key, report: (Node, string) -> Report)
    ensures |Duplicates(ns, key, report)| + |Stored(ns, key)| == Keyed(ns, key)
  {
    if ns != [] {
      DuplicateCount(ns[..|ns| - 1], key, report);
    }
  }
}
