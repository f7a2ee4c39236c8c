/** Numbers that a pass takes one after the other, told apart by the places in the tree that it takes them for. */
module Places {
  import opened MiniGo

  ghost predicate Injective(id: Path -> nat)
  {
    forall p, q | id(p) == id(q) :: p == q
  }

  /** The first step from a path, if there is one. */
  function First(ext: Path): int
  {
    if ext == [] then -1 else ext[0]
  }

  ghost predicate From(id: Path -> nat, path: Path, firsts: set<int>, n: nat)
  {
    exists ext: Path :: First(ext) in firsts && n == id(path + ext)
  }

  /** Each number occurs once, and belongs to a place that one of these steps leads to. */
  ghost predicate Own(id: Path -> nat, path: Path, firsts: set<int>, ids: multiset<nat>)
  {
    forall n | n in ids :: ids[n] == 1 && From(id, path, firsts, n)
  }

  /** One of the places below a path. */
  ghost predicate OwnAll(id: Path -> nat, path: Path, ids: multiset<nat>)
  {
    Own(id, path, {-1, 0, 1, 2, 3}, ids)
  }

  lemma Nothing(id: Path -> nat, path: Path, firsts: set<int>)
    ensures Own(id, path, firsts, multiset{})
  {
  }

  lemma Here(id: Path -> nat, path: Path)
    ensures Own(id, path, {-1}, multiset{id(path)})
  {
    assert path + [] == path;
    assert First([]) == -1;
    assert From(id, path, {-1}, id(path));
  }

  lemma Below(id: Path -> nat, path: Path, i: nat, ids: multiset<nat>)
    requires OwnAll(id, path + [i], ids)
    ensures Own(id, path, {i}, ids)
  {
    forall n | n in ids ensures From(id, path, {i}, n) {
      var ext: Path :| n == id(path + [i] + ext);
      assert path + [i] + ext == path + ([i] + ext) && First([i] + ext) == i;
    }
  }

  lemma Disjoint(id: Path -> nat, path: Path, f: set<int>, a: multiset<nat>, g: set<int>, b: multiset<nat>)
    requires Injective(id) && f !! g && Own(id, path, f, a) && Own(id, path, g, b)
    ensures Own(id, path, f + g, a + b)
  {
    forall n | n in a + b ensures (a + b)[n] == 1 && From(id, path, f + g, n) {
      if n in a && n in b {
        Clash(id, path, f, g, n);
      } else if n in a {
        Wider(id, path, f, f + g, n);
      } else {
        Wider(id, path, g, f + g, n);
      }
    }
  }

  lemma Clash(id: Path -> nat, path: Path, f: set<int>, g: set<int>, n: nat)
    requires Injective(id) && From(id, path, f, n) && From(id, path, g, n)
    ensures !(f !! g)
  {
    var x: Path :| First(x) in f && n == id(path + x);
    var y: Path :| First(y) in g && n == id(path + y);
    assert path + x == path + y;
    assert x == (path + x)[|path|..] == (path + y)[|path|..] == y;
  }

  lemma Wider(id: Path -> nat, path: Path, f: set<int>, g: set<int>, n: nat)
    requires f <= g && From(id, path, f, n)
    ensures From(id, path, g, n)
  {
  }

  lemma Widen(id: Path -> nat, path: Path, f: set<int>, ids: multiset<nat>)
    requires f <= {-1, 0, 1, 2, 3} && Own(id, path, f, ids)
    ensures OwnAll(id, path, ids)
  {
    forall n | n in ids ensures From(id, path, {-1, 0, 1, 2, 3}, n) {
      Wider(id, path, f, {-1, 0, 1, 2, 3}, n);
    }
  }

  /** What belongs to up to four steps and to the place itself. */
  lemma Together(id: Path -> nat, path: Path, here: bool, a: multiset<nat>, b: multiset<nat>, c: multiset<nat>,
                 d: multiset<nat>)
    requires Injective(id)
    requires OwnAll(id, path + [0], a) && OwnAll(id, path + [1], b) && OwnAll(id, path + [2], c)
             && OwnAll(id, path + [3], d)
    ensures OwnAll(id, path, (if here then multiset{id(path)} else multiset{}) + a + b + c + d)
    ensures !here ==> OwnAll(id, path, a + b + c + d)
  {
    hide Own, OwnAll, Injective;
    var h := if here then multiset{id(path)} else multiset{};
    Here(id, path);
    Nothing(id, path, {-1});
    Below(id, path, 0, a);
    Below(id, path, 1, b);
    Below(id, path, 2, c);
    Below(id, path, 3, d);
    Disjoint(id, path, {-1}, h, {0}, a);
    Disjoint(id, path, {-1} + {0}, h + a, {1}, b);
    Disjoint(id, path, {-1} + {0} + {1}, h + a + b, {2}, c);
    Disjoint(id, path, {-1} + {0} + {1} + {2}, h + a + b + c, {3}, d);
    Widen(id, path, {-1} + {0} + {1} + {2} + {3}, h + a + b + c + d);
    assert multiset{} + a == a;
  }

  /** The same for fewer steps. */
  lemma Two(id: Path -> nat, path: Path, here: bool, a: multiset<nat>, b: multiset<nat>)
    requires Injective(id) && OwnAll(id, path + [0], a) && OwnAll(id, path + [1], b)
    ensures OwnAll(id, path, (if here then multiset{id(path)} else multiset{}) + a + b)
    ensures !here ==> OwnAll(id, path, a + b)
  {
    hide Own, OwnAll;
    Empty(id, path + [2]);
    Empty(id, path + [3]);
    Together(id, path, here, a, b, multiset{}, multiset{});
    var h := if here then multiset{id(path)} else multiset{};
    assert h + a + b + multiset{} + multiset{} == h + a + b;
    assert multiset{} + a == a;
  }

  lemma Empty(id: Path -> nat, path: Path)
    ensures OwnAll(id, path, multiset{})
  {
  }

  lemma One(id: Path -> nat, path: Path, here: bool, a: multiset<nat>)
    requires Injective(id) && OwnAll(id, path + [0], a)
    ensures OwnAll(id, path, (if here then multiset{id(path)} else multiset{}) + a)
    ensures OwnAll(id, path, a)
  {
    hide Own, OwnAll;
    Empty(id, path + [1]);
    Two(id, path, here, a, multiset{});
    Two(id, path, false, a, multiset{});
    var h := if here then multiset{id(path)} else multiset{};
    assert h + a + multiset{} == h + a && multiset{} + a + multiset{} == a;
  }

  /** Functions start at places of which none leads to another. */
  ghost predicate RootsApart(root: string -> Path, p: Program)
  {
    forall a, b, x: Path, y: Path | a in p.funcs && b in p.funcs && a != b :: root(a) + x != root(b) + y
  }

  lemma RootsClash(id: Path -> nat, root: string -> Path, p: Program, a: string, b: string, n: nat)
    requires Injective(id) && a in p.funcs && b in p.funcs && a != b
    requires From(id, root(a), {-1, 0, 1, 2, 3}, n) && From(id, root(b), {-1, 0, 1, 2, 3}, n)
    ensures !RootsApart(root, p)
  {
    var x: Path :| n == id(root(a) + x);
    var y: Path :| n == id(root(b) + y);
    assert root(a) + x == root(b) + y;
  }
}
