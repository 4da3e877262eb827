/** Disjoint sets over ids: path compression and union by size. */
module UnionFind {
  import opened Powers

  /** The parent pointers, with each id's root and a rank that grows along every pointer. */
  datatype Forest = Forest(parent: map<string, string>, root: map<string, string>, rank: map<string, nat>)

  ghost predicate IsForest(f: Forest) {
    && f.root.Keys == f.parent.Keys && f.rank.Keys == f.parent.Keys
    && forall x {:trigger NodeOk(f, x)} :: x in f.parent ==> NodeOk(f, x)
  }

  ghost predicate NodeOk(f: Forest, x: string)
    requires x in f.parent && f.root.Keys == f.parent.Keys && f.rank.Keys == f.parent.Keys
  {
    && f.parent[x] in f.parent && f.root[x] in f.parent
    && f.root[f.parent[x]] == f.root[x] && f.root[f.root[x]] == f.root[x]
    && (f.parent[x] == x <==> f.root[x] == x)
    && (f.parent[x] != x ==> f.rank[x] < f.rank[f.parent[x]])
    && f.rank[x] <= f.rank[f.root[x]]
  }

  ghost predicate Distinct(ids: seq<string>) {
    forall i, j :: 0 <= i < j < |ids| ==> ids[i] != ids[j]
  }

  /** Each root lists its set, and no set is smaller than two to the rank of its root. */
  ghost predicate Listed(f: Forest, members: map<string, seq<string>>)
    requires IsForest(f)
  {
    && (forall r :: r in members <==> r in f.parent && f.root[r] == r)
    && (forall r {:trigger ListOk(f, r, members[r])} :: r in members ==> ListOk(f, r, members[r]))
  }

  ghost predicate ListOk(f: Forest, r: string, ids: seq<string>)
    requires IsForest(f)
  {
    && Distinct(ids) && (forall k :: k in ids <==> k in f.parent && f.root[k] == r)
    && r in f.rank && Pow2(f.rank[r]) <= |ids|
  }

  ghost function RankLeft(f: Forest, x: string): nat {
    if x in f.root && f.root[x] in f.rank && x in f.rank &&
       f.rank[x] <= f.rank[f.root[x]] then f.rank[f.root[x]] - f.rank[x] else 0
  }

  /** How many pointers lie between an id and its root. */
  ghost function Depth(f: Forest, x: string): nat
    requires IsForest(f) && x in f.parent
    decreases RankLeft(f, x)
  {
    assert NodeOk(f, x) && NodeOk(f, f.parent[x]);
    if f.parent[x] == x then 0 else 1 + Depth(f, f.parent[x])
  }

  lemma {:induction false} DepthIsBelowRank(f: Forest, x: string)
    requires IsForest(f) && x in f.parent
    ensures f.root[x] in f.rank && Depth(f, x) + f.rank[x] <= f.rank[f.root[x]]
    decreases RankLeft(f, x)
  {
    assert NodeOk(f, x) && NodeOk(f, f.parent[x]);
    if f.parent[x] != x {
      DepthIsBelowRank(f, f.parent[x]);
    }
  }

  /** No id is deeper than the binary logarithm of its set's size. */
  lemma DepthIsLogarithmic(f: Forest, members: map<string, seq<string>>, x: string)
    requires IsForest(f) && Listed(f, members) && x in f.parent
    ensures f.root[x] in members && Pow2(Depth(f, x)) <= |members[f.root[x]]|
  {
    assert NodeOk(f, x);
    DepthIsBelowRank(f, x);
    var r := f.root[x];
    assert r in members && ListOk(f, r, members[r]);
    if Depth(f, x) < f.rank[r] {
      Pow2Grows(Depth(f, x), f.rank[r]);
    }
  }

  // ---------------------------------------------------------------- steps

  lemma RootsExist(f: Forest)
    requires IsForest(f)
    ensures forall k {:trigger f.root[k]} :: k in f.parent ==> f.root[k] in f.parent
    ensures forall k {:trigger f.root[k]} :: k in f.parent ==> f.root[f.root[k]] == f.root[k]
  {
    forall k {:trigger f.root[k]} | k in f.parent ensures f.root[k] in f.parent && f.root[f.root[k]] == f.root[k] {
      assert NodeOk(f, k);
    }
  }

  /** A new id is a set of its own. */
  ghost function Added(f: Forest, x: string): Forest {
    Forest(f.parent[x := x], f.root[x := x], f.rank[x := 0])
  }

  lemma AddedKeeps(f: Forest, members: map<string, seq<string>>, x: string)
    requires IsForest(f) && Listed(f, members) && x !in f.parent
    ensures IsForest(Added(f, x)) && Listed(Added(f, x), members[x := [x]])
  {
    var g := Added(f, x);
    forall y {:trigger NodeOk(g, y)} | y in g.parent ensures NodeOk(g, y) {
      assert y != x ==> NodeOk(f, y);
    }
    var after := members[x := [x]];
    RootsExist(f);
    hide NodeOk;
    forall r {:trigger ListOk(g, r, after[r])} | r in after ensures ListOk(g, r, after[r]) {
      if r != x {
        assert ListOk(f, r, members[r]);
      }
    }
  }

  /** Pointing an id straight at its root changes no set. */
  ghost function Compressed(f: Forest, x: string): Forest
    requires x in f.root
  {
    f.(parent := f.parent[x := f.root[x]])
  }

  lemma CompressedKeeps(f: Forest, members: map<string, seq<string>>, x: string)
    requires IsForest(f) && Listed(f, members) && x in f.parent
    ensures IsForest(Compressed(f, x)) && Listed(Compressed(f, x), members)
  {
    var g := Compressed(f, x);
    assert NodeOk(f, x) && NodeOk(f, f.root[x]) && NodeOk(f, f.parent[x]);
    forall y {:trigger NodeOk(g, y)} | y in g.parent ensures NodeOk(g, y) {
      assert NodeOk(f, y);
    }
    hide NodeOk;
    forall r {:trigger ListOk(g, r, members[r])} | r in members ensures ListOk(g, r, members[r]) {
      assert ListOk(f, r, members[r]);
    }
  }

  function Max(a: nat, b: nat): nat {
    if a >= b then a else b
  }

  /** Root `b` goes under root `a`. */
  ghost function Linked(f: Forest, a: string, b: string): Forest
    requires a in f.rank && b in f.rank
  {
    Forest(f.parent[b := a], map k | k in f.root :: if f.root[k] == b then a else f.root[k],
           f.rank[a := Max(f.rank[a], f.rank[b] + 1)])
  }

  lemma LinkedKeeps(f: Forest, members: map<string, seq<string>>, a: string, b: string)
    requires IsForest(f) && Listed(f, members) && a in members && b in members && a != b && |members[a]| >= |members[b]|
    ensures IsForest(Linked(f, a, b)) && Listed(Linked(f, a, b), (members - {b})[a := members[a] + members[b]])
  {
    LinkedForest(f, members, a, b);
    var g := Linked(f, a, b);
    var after := (members - {b})[a := members[a] + members[b]];
    RootsExist(f);
    LinkedList(f, members, a, b);
    hide NodeOk, ListOk, IsForest;
    forall r {:trigger ListOk(g, r, after[r])} | r in after ensures ListOk(g, r, after[r]) {
      if r != a {
        OtherList(f, members, a, b, r);
      }
    }
  }

  lemma OtherList(f: Forest, members: map<string, seq<string>>, a: string, b: string, r: string)
    requires IsForest(f) && Listed(f, members) && a in members && b in members && a != b && IsForest(Linked(f, a, b))
    requires r in members && r != a && r != b
    ensures ListOk(Linked(f, a, b), r, members[r])
  {
    assert ListOk(f, r, members[r]);
    hide NodeOk;
  }

  lemma LinkedList(f: Forest, members: map<string, seq<string>>, a: string, b: string)
    requires IsForest(f) && Listed(f, members) && a in members && b in members && a != b && |members[a]| >= |members[b]|
    requires IsForest(Linked(f, a, b))
    ensures ListOk(Linked(f, a, b), a, members[a] + members[b])
  {
    assert ListOk(f, a, members[a]) && ListOk(f, b, members[b]);
    hide NodeOk;
    assert Pow2(f.rank[b] + 1) == 2 * Pow2(f.rank[b]);
    BothDistinct(members[a], members[b]);
  }

  lemma BothDistinct(x: seq<string>, y: seq<string>)
    requires Distinct(x) && Distinct(y) && forall k :: k in x ==> k !in y
    ensures Distinct(x + y) && forall k :: k in x + y <==> k in x || k in y
  {
    forall i, j | 0 <= i < j < |x + y| ensures (x + y)[i] != (x + y)[j] {
      if i < |x| <= j {
        assert x[i] in x && y[j - |x|] in y;
      }
    }
  }

  lemma LinkedForest(f: Forest, members: map<string, seq<string>>, a: string, b: string)
    requires IsForest(f) && Listed(f, members) && a in members && b in members && a != b
    ensures IsForest(Linked(f, a, b))
  {
    var g := Linked(f, a, b);
    assert NodeOk(f, a) && NodeOk(f, b);
    forall x {:trigger NodeOk(g, x)} | x in g.parent ensures NodeOk(g, x) {
      assert NodeOk(f, x) && NodeOk(f, f.parent[x]) && NodeOk(f, f.root[x]);
    }
  }

  // ---------------------------------------------------------------- the class

  class UnionFind {
    var parent: map<string, string>
    var members: map<string, seq<string>>  // root -> its set
    ghost var root: map<string, string>
    ghost var rank: map<string, nat>

    ghost function Snap(): (f: Forest)
      reads this
      ensures f == Forest(parent, root, rank)
    {
      Forest(parent, root, rank)
    }

    ghost predicate Valid()
      reads this
    {
      IsForest(Snap()) && Listed(Snap(), members)
    }

    constructor ()
      ensures Valid() && parent == map[] && root == map[]
    {
      parent, members, root, rank := map[], map[], map[], map[];
    }

    method Add(key: string)
      requires Valid()
      modifies this
      ensures Valid()
      ensures root == (if key in old(parent) then old(root) else old(root)[key := key])
      ensures key in parent && parent.Keys == old(parent).Keys + {key}
      ensures key in old(parent) ==> members == old(members) && parent == old(parent)
    {
      hide IsForest, Listed;
      Unpack();
      if key !in parent {
        AddedKeeps(Snap(), members, key);
        parent, members, root, rank := parent[key := key], members[key := [key]], root[key := key], rank[key := 0];
      }
    }

    lemma Unpack()
      requires Valid()
      ensures IsForest(Snap()) && Listed(Snap(), members) && root.Keys == parent.Keys && rank.Keys == parent.Keys
    {
    }

    lemma Repack()
      requires IsForest(Snap()) && Listed(Snap(), members)
      ensures Valid()
    {
    }

    lemma MembersAre(r: string)
      requires Valid() && r in members
      ensures root.Keys == parent.Keys && forall k :: k in members[r] <==> k in root && root[k] == r
    {
      assert ListOk(Snap(), r, members[r]);
    }

    lemma RootKnown(r: string)
      requires Valid() && r in members
      ensures r in parent
    {
    }

    lemma AtNode(x: string)
      requires Valid() && x in parent
      ensures root.Keys == parent.Keys && rank.Keys == parent.Keys && NodeOk(Snap(), x) && root[x] in members
    {
    }

    /** The root of a key's set; an unknown key becomes a set of its own. Every id on the way is
        pointed straight at the root, which changes no set. */
    method Find(key: string) returns (r: string)
      requires Valid()
      modifies this
      ensures Valid() && key in root && r == root[key] && r in members && r in parent
      ensures root == (if key in old(parent) then old(root) else old(root)[key := key])
      ensures parent.Keys == old(parent).Keys + {key}
      ensures key in old(parent) ==> members == old(members)
    {
      hide IsForest, Listed;
      Add(key);
      r := key;
      AtNode(key);
      Unpack();
      AtNode(root[key]);
      ghost var before, lists := Snap(), members;
      while parent[r] != r
        invariant Snap() == before && members == lists
        invariant Valid() && key in root && r in parent && r in root && root[r] == root[key]
        invariant rank.Keys == parent.Keys && root[key] in rank && rank[r] <= rank[root[key]]
        decreases rank[root[key]] - rank[r]
      {
        AtNode(r);
        AtNode(parent[r]);
        r := parent[r];
      }
      AtNode(r);
      Compress(key, r);
    }

    /** Path compression on the way back down. */
    method Compress(key: string, r: string)
      requires Valid() && key in parent && root.Keys == parent.Keys && r == root[key]
      modifies this`parent
      ensures Valid() && parent.Keys == old(parent).Keys
    {
      hide IsForest, Listed;
      var k := key;
      AtNode(k);
      while parent[k] != r
        invariant Valid() && parent.Keys == old(parent).Keys && k in parent && root.Keys == parent.Keys == rank.Keys
        invariant root[k] == r && r in rank && rank[k] <= rank[r]
        decreases rank[r] - rank[k]
      {
        AtNode(k);
        AtNode(parent[k]);
        Unpack();
        CompressedKeeps(Snap(), members, k);
        var next := parent[k];
        AtNode(r);
        parent := parent[k := r];
        k := next;
        Repack();
      }
    }

    /** Merge two sets into the larger one; a set may be the one-element set of an unknown id. */
    method Union(left: string, right: string) returns (r: string)
      requires Valid()
      modifies this
      ensures Valid() && left in root && right in root && r == root[left] == root[right]
      ensures parent.Keys == (old(parent).Keys + {left}) + {right}
      ensures root == Joined(Grown(old(root), left, right), left, right, r)
      ensures r == Grown(old(root), left, right)[left] || r == Grown(old(root), left, right)[right]
    {
      hide *;
      Unpack();
      ghost var before := root;
      var a := Find(left);
      Unpack();
      var b := Find(right);
      Unpack();
      GrownTwice(before, left, right);
      if a == b {
        JoinedAlready(root, left, right, a);
        return a;
      }
      AtNode(left);
      AtNode(right);
      if |members[a]| < |members[b]| {
        a, b := b, a;
      }
      LinkedIsJoined(Snap(), left, right, a, b);
      Link(a, b);
      return a;
    }

    /** The smaller root goes under the larger one, which takes over its list. */
    method Link(a: string, b: string)
      requires Valid() && a in members && b in members && a != b && |members[a]| >= |members[b]|
      requires a in rank && b in rank
      modifies this
      ensures Valid() && Snap() == Linked(old(Snap()), a, b)
      ensures parent.Keys == old(parent).Keys
    {
      hide *;
      Unpack();
      RootKnown(b);
      LinkedKeeps(Snap(), members, a, b);
      ghost var f := Linked(Snap(), a, b);
      LinkedParent(Snap(), a, b);
      parent, members := parent[b := a], (members - {b})[a := members[a] + members[b]];
      root, rank := f.root, f.rank;
      Repack();
    }
  }

  lemma LinkedParent(f: Forest, a: string, b: string)
    requires a in f.rank && b in f.rank
    ensures Linked(f, a, b).parent == f.parent[b := a]
  {
  }

  lemma GrownTwice(root: map<string, string>, left: string, right: string)
    ensures var one := if left in root then root else root[left := left];
            Grown(root, left, right) == if right in one then one else one[right := right]
  {
  }

  lemma JoinedAlready(root: map<string, string>, left: string, right: string, r: string)
    requires left in root && right in root && root[left] == root[right] == r
    ensures Joined(root, left, right, r) == root
  {
  }

  lemma LinkedIsJoined(f: Forest, left: string, right: string, a: string, b: string)
    requires IsForest(f) && left in f.root && right in f.root && a in f.rank && b in f.rank
    requires (a == f.root[left] && b == f.root[right]) || (a == f.root[right] && b == f.root[left])
    ensures Linked(f, a, b).parent == f.parent[b := a]
    ensures Linked(f, a, b).root == Joined(f.root, left, right, a)
    ensures var r := Joined(f.root, left, right, a); r.Keys == f.root.Keys && r[left] == r[right] == a
  {
  }

  /** The roots with both ids known. */
  ghost function Grown(root: map<string, string>, left: string, right: string): (g: map<string, string>)
    ensures left in g && right in g
  {
    var one := if left in root then root else root[left := left];
    if right in one then one else one[right := right]
  }

  /** Two sets become one with root `r`; every other set keeps its root. */
  ghost function Joined(root: map<string, string>, left: string, right: string, r: string): map<string, string>
    requires left in root && right in root
  {
    map k | k in root :: if root[k] == root[left] || root[k] == root[right] then r else root[k]
  }
}
