/**
  `treeify(data, idKey)`: turns a flat list of records, each naming its
  parent in its `parent` field, into a forest.  It indexes the records by
  the field `idKey` (the last record wins when ids repeat), then walks the
  list from the last record to the first: a record whose `parent` is truthy
  and found in the index is pushed onto that record's `children` (created
  on first use) and gets it as `parentNode`; every other record gets a null
  `parentNode` and is pushed onto `roots`.

  The records live in an array and refer to each other by position: a
  record's `children` holds positions, its `parentNode` a position or null.
  Roots and children come out in reverse input order, duplicate ids and
  parent loops raise no error, and a record on a parent loop is never a
  root, so nothing reaches it from `roots`.
*/
module Treeify {
  import opened Js

  /** A record's `parentNode`: not yet assigned, null, or the record at a position. */
  datatype Link = Unset | NullLink | To(index: nat)

  /**
    One input record: its own fields (id, `parent`, title, ...), the
    `children` array treeify creates and fills, and the `parentNode` it assigns.
  */
  datatype Record = Record(fields: map<string, Value>, children: Option<seq<nat>>, parentNode: Link)

  /** The field treeify reads the parent id from. */
  const ParentField: string := "parent"

  /** `record[name]`, undefined when the record has no such field. */
  function Field(r: Record, name: string): Value {
    if name in r.fields then r.fields[name] else Undefined
  }

  /** The position of the last record among the first n whose `idKey` field is key. */
  function LastWithId(s: seq<Record>, idKey: string, key: Value, n: nat): (r: Option<nat>)
    requires n <= |s|
    ensures r.Some? ==> r.value < n
  {
    if n == 0 then None
    else if Field(s[n - 1], idKey) == key then Some(n - 1)
    else LastWithId(s, idKey, key, n - 1)
  }

  /** The search finds a record carrying key exactly when one exists, and no later record carries it. */
  lemma {:induction false} LastWithIdSpec(s: seq<Record>, idKey: string, key: Value, n: nat)
    requires n <= |s|
    ensures var r := LastWithId(s, idKey, key, n);
      && (r.Some? ==> Field(s[r.value], idKey) == key)
      && (r.Some? ==> forall j :: r.value < j < n ==> Field(s[j], idKey) != key)
      && (r.None? ==> forall j :: 0 <= j < n ==> Field(s[j], idKey) != key)
  {
    if n > 0 && Field(s[n - 1], idKey) != key {
      LastWithIdSpec(s, idKey, key, n - 1);
    }
  }

  /** `_.indexBy` over the first n records: later records overwrite earlier ones. */
  function IndexPrefix(s: seq<Record>, idKey: string, n: nat): (m: map<Value, nat>)
    requires n <= |s|
    ensures forall key :: key in m <==> LastWithId(s, idKey, key, n).Some?
    ensures forall key :: key in m ==> m[key] == LastWithId(s, idKey, key, n).value
  {
    if n == 0 then map[]
    else IndexPrefix(s, idKey, n - 1)[Field(s[n - 1], idKey) := n - 1]
  }

  /** `_.indexBy(data, idKey)`: each id maps to the position of the LAST record carrying it. */
  function IndexBy(s: seq<Record>, idKey: string): map<Value, nat> {
    IndexPrefix(s, idKey, |s|)
  }

  /** The position record i is attached under, or None when it becomes a root. */
  function ParentOf(s: seq<Record>, idKey: string, i: nat): (r: Option<nat>)
    requires i < |s|
    ensures r.Some? ==> r.value < |s|
  {
    var key := Field(s[i], ParentField);
    if Truthy(key) then LastWithId(s, idKey, key, |s|) else None
  }

  /**
    Record i has a parent exactly when its `parent` field is truthy and some
    record carries that value as its id; with duplicate ids it is the last one.
  */
  lemma ParentOfSpec(s: seq<Record>, idKey: string, i: nat)
    requires i < |s|
    ensures var key := Field(s[i], ParentField); var r := ParentOf(s, idKey, i);
      && (r.None? <==> Falsy(key) || forall j :: 0 <= j < |s| ==> Field(s[j], idKey) != key)
      && (r.Some? ==> Field(s[r.value], idKey) == key)
      && (r.Some? ==> forall j :: r.value < j < |s| ==> Field(s[j], idKey) != key)
  {
    LastWithIdSpec(s, idKey, Field(s[i], ParentField), |s|);
  }

  predicate IsRoot(s: seq<Record>, idKey: string, i: nat)
    requires i < |s|
  {
    ParentOf(s, idKey, i).None?
  }

  predicate StrictlyDecreasing(r: seq<nat>) {
    forall a, b :: 0 <= a < b < |r| ==> r[a] > r[b]
  }

  /** The roots pushed while the loop visits positions |s|-1 down to i. */
  function RootsFrom(s: seq<Record>, idKey: string, i: nat): seq<nat>
    requires i <= |s|
    decreases |s| - i
  {
    if i == |s| then []
    else RootsFrom(s, idKey, i + 1) + (if IsRoot(s, idKey, i) then [i] else [])
  }

  /** The children pushed onto record p while the loop visits positions |s|-1 down to i. */
  function ChildrenFrom(s: seq<Record>, idKey: string, p: nat, i: nat): seq<nat>
    requires i <= |s|
    decreases |s| - i
  {
    if i == |s| then []
    else ChildrenFrom(s, idKey, p, i + 1) + (if ParentOf(s, idKey, i) == Some(p) then [i] else [])
  }

  /** The roots pushed from position i on are exactly the visited positions with no parent, latest first. */
  lemma {:induction false} RootsFromSpec(s: seq<Record>, idKey: string, i: nat)
    requires i <= |s|
    ensures forall x :: x in RootsFrom(s, idKey, i) <==> i <= x < |s| && IsRoot(s, idKey, x)
    ensures StrictlyDecreasing(RootsFrom(s, idKey, i))
    decreases |s| - i
  {
    if i < |s| {
      RootsFromSpec(s, idKey, i + 1);
      var later := RootsFrom(s, idKey, i + 1);
      assert forall k :: 0 <= k < |later| ==> later[k] in later;
    }
  }

  /** The children pushed onto p from position i on are exactly the visited positions whose parent is p, latest first. */
  lemma {:induction false} ChildrenFromSpec(s: seq<Record>, idKey: string, p: nat, i: nat)
    requires i <= |s|
    ensures forall x :: x in ChildrenFrom(s, idKey, p, i) <==> i <= x < |s| && ParentOf(s, idKey, x) == Some(p)
    ensures StrictlyDecreasing(ChildrenFrom(s, idKey, p, i))
    decreases |s| - i
  {
    if i < |s| {
      ChildrenFromSpec(s, idKey, p, i + 1);
      var later := ChildrenFrom(s, idKey, p, i + 1);
      assert forall k :: 0 <= k < |later| ==> later[k] in later;
    }
  }

  function Roots(s: seq<Record>, idKey: string): seq<nat> {
    RootsFrom(s, idKey, 0)
  }

  function ChildrenOf(s: seq<Record>, idKey: string, p: nat): seq<nat> {
    ChildrenFrom(s, idKey, p, 0)
  }

  /**
    Record j once the loop has visited positions |s|-1 down to i: the
    children pushed so far follow any it already had, an array is created
    only if one was pushed, and its parentNode is set once the loop has
    passed it.
  */
  function LinkedFrom(s: seq<Record>, idKey: string, j: nat, i: nat): Record
    requires j < |s| && i <= |s|
  {
    var pushed := ChildrenFrom(s, idKey, j, i);
    Record(
      s[j].fields,
      if pushed == [] then s[j].children else Some(s[j].children.GetOr([]) + pushed),
      if j < i then s[j].parentNode
      else match ParentOf(s, idKey, j)
        case None => NullLink
        case Some(p) => To(p))
  }

  function Linked(s: seq<Record>, idKey: string, j: nat): Record
    requires j < |s|
  {
    LinkedFrom(s, idKey, j, 0)
  }

  /** The array holds every record as the loop leaves it after visiting positions |s|-1 down to i. */
  ghost predicate LinkedState(cur: seq<Record>, s: seq<Record>, idKey: string, i: nat)
    requires i <= |s|
  {
    |cur| == |s| && forall j :: 0 <= j < |s| ==> cur[j] == LinkedFrom(s, idKey, j, i)
  }

  /** Visiting position n - 1 pushes it onto the children of its parent j. */
  lemma StepParent(s: seq<Record>, idKey: string, j: nat, n: nat)
    requires 0 < n <= |s| && j < |s| && ParentOf(s, idKey, n - 1) == Some(j)
    ensures var prev := LinkedFrom(s, idKey, j, n);
      LinkedFrom(s, idKey, j, n - 1) ==
        prev.(children := Some(prev.children.GetOr([]) + [n - 1]),
              parentNode := if j == n - 1 then To(j) else prev.parentNode)
  {
    var pushed := ChildrenFrom(s, idKey, j, n);
    assert ChildrenFrom(s, idKey, j, n - 1) == pushed + [n - 1];
    var orig := s[j].children.GetOr([]);
    assert orig + pushed + [n - 1] == orig + (pushed + [n - 1]);
    if pushed == [] {
      assert pushed + [n - 1] == [n - 1];
    }
  }

  /** Visiting position j = n - 1 sets its parentNode; unless it is its own parent, its children stay as they were. */
  lemma StepVisited(s: seq<Record>, idKey: string, j: nat, n: nat)
    requires 0 < n <= |s| && j == n - 1 && ParentOf(s, idKey, j) != Some(j)
    ensures LinkedFrom(s, idKey, j, n - 1) ==
        LinkedFrom(s, idKey, j, n).(parentNode := match ParentOf(s, idKey, j)
          case None => NullLink
          case Some(p) => To(p))
  {
    var later := ChildrenFrom(s, idKey, j, n);
    assert ChildrenFrom(s, idKey, j, n - 1) == later + [];
    assert later + [] == later;
    assert LinkedFrom(s, idKey, j, n - 1).children == LinkedFrom(s, idKey, j, n).children;
  }

  /** A record that is neither visited nor the parent of the visited one is unchanged by the step. */
  lemma StepOther(s: seq<Record>, idKey: string, j: nat, n: nat)
    requires j < |s| && 0 < n <= |s| && j != n - 1 && ParentOf(s, idKey, n - 1) != Some(j)
    ensures LinkedFrom(s, idKey, j, n - 1) == LinkedFrom(s, idKey, j, n)
  {
    var later := ChildrenFrom(s, idKey, j, n);
    assert ChildrenFrom(s, idKey, j, n - 1) == later + [];
    assert later + [] == later;
    assert LinkedFrom(s, idKey, j, n - 1).children == LinkedFrom(s, idKey, j, n).children;
    assert LinkedFrom(s, idKey, j, n - 1).parentNode == LinkedFrom(s, idKey, j, n).parentNode;
  }

  /** The loop body for position n - 1 when its parent resolves to p. */
  lemma VisitChild(cur: seq<Record>, s: seq<Record>, idKey: string, n: nat, p: nat)
    requires 0 < n <= |s| && LinkedState(cur, s, idKey, n) && ParentOf(s, idKey, n - 1) == Some(p)
    ensures var c := cur[n - 1 := cur[n - 1].(parentNode := To(p))];
      LinkedState(c[p := c[p].(children := Some(c[p].children.GetOr([]) + [n - 1]))], s, idKey, n - 1)
  {
    var c := cur[n - 1 := cur[n - 1].(parentNode := To(p))];
    var after := c[p := c[p].(children := Some(c[p].children.GetOr([]) + [n - 1]))];
    forall j | 0 <= j < |s|
      ensures after[j] == LinkedFrom(s, idKey, j, n - 1)
    {
      if j == p {
        assert cur[j] == LinkedFrom(s, idKey, j, n);
        StepParent(s, idKey, j, n);
      } else if j == n - 1 {
        assert cur[j] == LinkedFrom(s, idKey, j, n);
        StepVisited(s, idKey, j, n);
      } else {
        StepOther(s, idKey, j, n);
      }
    }
  }

  /** The loop body for position n - 1 when it becomes a root. */
  lemma VisitRoot(cur: seq<Record>, s: seq<Record>, idKey: string, n: nat)
    requires 0 < n <= |s| && LinkedState(cur, s, idKey, n) && ParentOf(s, idKey, n - 1).None?
    ensures LinkedState(cur[n - 1 := cur[n - 1].(parentNode := NullLink)], s, idKey, n - 1)
  {
    var after := cur[n - 1 := cur[n - 1].(parentNode := NullLink)];
    forall j | 0 <= j < |s|
      ensures after[j] == LinkedFrom(s, idKey, j, n - 1)
    {
      if j == n - 1 {
        assert cur[j] == LinkedFrom(s, idKey, j, n);
        StepVisited(s, idKey, j, n);
      } else {
        StepOther(s, idKey, j, n);
      }
    }
  }

  /**
    The final state of record j: its fields untouched, the positions whose
    parent it is appended to the children it already had (an array is created
    only when at least one arrives), and its parentNode null for a root or
    its resolved parent otherwise.
  */
  lemma LinkedSpec(s: seq<Record>, idKey: string, j: nat)
    requires j < |s|
    ensures Linked(s, idKey, j).fields == s[j].fields
    ensures Linked(s, idKey, j).children.Some? <==>
      s[j].children.Some? || exists x :: 0 <= x < |s| && ParentOf(s, idKey, x) == Some(j)
    ensures s[j].children.Some? ==> Linked(s, idKey, j).children == Some(s[j].children.value + ChildrenOf(s, idKey, j))
    ensures s[j].children.None? ==> Linked(s, idKey, j).children.GetOr([]) == ChildrenOf(s, idKey, j)
    ensures IsRoot(s, idKey, j) ==> Linked(s, idKey, j).parentNode == NullLink
    ensures !IsRoot(s, idKey, j) ==> Linked(s, idKey, j).parentNode == To(ParentOf(s, idKey, j).value)
  {
    ChildrenFromSpec(s, idKey, j, 0);
    var kids := ChildrenOf(s, idKey, j);
    if kids != [] {
      assert kids[0] in kids;
    }
    if s[j].children.Some? && kids == [] {
      assert s[j].children.value + kids == s[j].children.value;
    }
  }

  /**
    Every record lands in exactly one list: the roots when it has no parent,
    otherwise the children of its parent and of no other record; and every
    list holds positions in decreasing (reverse input) order, so none twice.
  */
  lemma Placement(s: seq<Record>, idKey: string, x: nat)
    requires x < |s|
    ensures x in Roots(s, idKey) <==> IsRoot(s, idKey, x)
    ensures forall p: nat :: x in ChildrenOf(s, idKey, p) <==> ParentOf(s, idKey, x) == Some(p)
    ensures x in Roots(s, idKey) ==> forall p: nat :: x !in ChildrenOf(s, idKey, p)
    ensures x !in Roots(s, idKey) ==> x in ChildrenOf(s, idKey, ParentOf(s, idKey, x).value)
    ensures StrictlyDecreasing(Roots(s, idKey))
    ensures forall p: nat :: StrictlyDecreasing(ChildrenOf(s, idKey, p))
  {
    RootsFromSpec(s, idKey, 0);
    forall p: nat
      ensures x in ChildrenOf(s, idKey, p) <==> ParentOf(s, idKey, x) == Some(p)
      ensures StrictlyDecreasing(ChildrenOf(s, idKey, p))
    {
      ChildrenFromSpec(s, idKey, p, 0);
    }
  }

  /** Record x is found k levels below a root by following children lists. */
  ghost predicate Below(s: seq<Record>, idKey: string, x: nat, k: nat)
    decreases k
  {
    if k == 0 then x in Roots(s, idKey)
    else exists p: nat :: Below(s, idKey, p, k - 1) && x in ChildrenOf(s, idKey, p)
  }

  /**
    No cycle check: records whose parents form a loop (each has a parent,
    and that parent is again in the loop) are never roots, so no depth of
    descent from the roots reaches them.
  */
  lemma {:induction false} LoopUnreachable(s: seq<Record>, idKey: string, loop: set<nat>, x: nat, k: nat)
    requires forall y :: y in loop ==> y < |s| && ParentOf(s, idKey, y).Some? && ParentOf(s, idKey, y).value in loop
    requires x in loop
    ensures !Below(s, idKey, x, k)
    decreases k
  {
    if k == 0 {
      RootsFromSpec(s, idKey, 0);
    } else if Below(s, idKey, x, k) {
      var p: nat :| Below(s, idKey, p, k - 1) && x in ChildrenOf(s, idKey, p);
      ChildrenFromSpec(s, idKey, p, 0);
      LoopUnreachable(s, idKey, loop, p, k - 1);
    }
  }

  /** A record whose parent id is its own id is never reached from the roots. */
  lemma SelfParentUnreachable(s: seq<Record>, idKey: string, x: nat, k: nat)
    requires x < |s| && ParentOf(s, idKey, x) == Some(x)
    ensures !Below(s, idKey, x, k)
  {
    LoopUnreachable(s, idKey, {x}, x, k);
  }

  method Treeify(data: array<Record>, idKey: string) returns (roots: seq<nat>)
    modifies data
    ensures roots == Roots(old(data[..]), idKey)
    ensures forall j :: 0 <= j < data.Length ==> data[j] == Linked(old(data[..]), idKey, j)
  {
    ghost var s := data[..];
    var index := IndexBy(data[..], idKey);
    roots := [];
    var i := data.Length;
    while i > 0
      invariant 0 <= i <= data.Length
      invariant roots == RootsFrom(s, idKey, i)
      invariant LinkedState(data[..], s, idKey, i)
    {
      var k: nat := i - 1;
      assert RootsFrom(s, idKey, k) == roots + (if IsRoot(s, idKey, k) then [k] else []);
      var key := Field(data[k], ParentField);
      assert key == Field(s[k], ParentField);
      if Truthy(key) && key in index {
        var p := index[key];
        assert ParentOf(s, idKey, k) == Some(p);
        Attach(data, s, idKey, k, p);
        assert roots + [] == roots;
      } else {
        assert ParentOf(s, idKey, k).None?;
        MakeRoot(data, s, idKey, k);
        roots := roots + [k];
      }
      i := k;
    }
    assert forall j :: 0 <= j < data.Length ==> data[..][j] == data[j];
  }

  /** The loop body for record k whose parent is record p: link k to p and push k onto p's children. */
  method Attach(data: array<Record>, ghost s: seq<Record>, idKey: string, k: nat, p: nat)
    requires k < |s| && LinkedState(data[..], s, idKey, k + 1) && ParentOf(s, idKey, k) == Some(p)
    modifies data
    ensures LinkedState(data[..], s, idKey, k)
  {
    ghost var before := data[..];
    ghost var c := before[k := before[k].(parentNode := To(p))];
    data[k] := data[k].(parentNode := To(p));
    assert data[..] == c;
    var parent := data[p];
    var kids: seq<nat> := if parent.children.None? then [] else parent.children.value;
    data[p] := parent.(children := Some(kids + [k]));
    assert data[..] == c[p := c[p].(children := Some(c[p].children.GetOr([]) + [k]))];
    VisitChild(before, s, idKey, k + 1, p);
  }

  /** The loop body for record k without a parent: its parentNode becomes null. */
  method MakeRoot(data: array<Record>, ghost s: seq<Record>, idKey: string, k: nat)
    requires k < |s| && LinkedState(data[..], s, idKey, k + 1) && ParentOf(s, idKey, k).None?
    modifies data
    ensures LinkedState(data[..], s, idKey, k)
  {
    ghost var before := data[..];
    data[k] := data[k].(parentNode := NullLink);
    assert data[..] == before[k := before[k].(parentNode := NullLink)];
    VisitRoot(before, s, idKey, k + 1);
  }
}
