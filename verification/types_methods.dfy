/** User-defined types with methods: a Person whose age can be updated, and
    an unbalanced binary search tree of ints that treats the nil tree as the
    empty tree. The Go tree is mutated in place through pointers; no node is
    ever shared between two trees, so a fresh value per update has the same
    observable meaning. */
module TypesAndMethods {

  datatype Person = Person(FirstName: string, LastName: string, Age: int)

  /** `(*Person).UpdateAge`: the age becomes `newAge`, nothing else changes. */
  function UpdateAge(p: Person, newAge: int): (q: Person)
    ensures q.Age == newAge
    ensures q.FirstName == p.FirstName && q.LastName == p.LastName
  {
    p.(Age := newAge)
  }

  /** Only the most recent update is visible, and setting the age a person
      already has changes nothing. */
  lemma UpdateAgeLastWins(p: Person, a: int, b: int)
    ensures UpdateAge(UpdateAge(p, a), b) == UpdateAge(p, b)
    ensures UpdateAge(p, p.Age) == p
  {
  }

  /** `*IntTree`: `Nil` is the nil pointer. */
  datatype IntTree = Nil | Node(val: int, left: IntTree, right: IntTree)

  /** The values stored anywhere in the tree. */
  function Elements(t: IntTree): set<int>
  {
    match t
    case Nil => {}
    case Node(v, l, r) => Elements(l) + {v} + Elements(r)
  }

  function Size(t: IntTree): nat
  {
    match t
    case Nil => 0
    case Node(_, l, r) => Size(l) + 1 + Size(r)
  }

  /** The search-tree ordering: every value in a left subtree is smaller than
      its node's value and every value in a right subtree is larger. */
  ghost predicate IsBst(t: IntTree)
  {
    match t
    case Nil => true
    case Node(v, l, r) =>
      && IsBst(l) && IsBst(r)
      && (forall x :: x in Elements(l) ==> x < v)
      && (forall x :: x in Elements(r) ==> x > v)
  }

  /** `(*IntTree).Insert`: descend by comparison and hang a new leaf where
      the search falls off the tree; a value already present stops the
      descent at its own node and adds nothing. */
  function Insert(t: IntTree, v: int): (r: IntTree)
    ensures t == Nil ==> r == Node(v, Nil, Nil)
    ensures Elements(r) == Elements(t) + {v}
    ensures IsBst(t) ==> IsBst(r)
  {
    match t
    case Nil => Node(v, Nil, Nil)
    case Node(x, l, rt) =>
      if v < x then Node(x, Insert(l, v), rt)
      else if v > x then Node(x, l, Insert(rt, v))
      else t
  }

  /** `(*IntTree).Contains`: on a search tree the descent finds exactly the
      stored values. */
  function Contains(t: IntTree, v: int): (b: bool)
    ensures t == Nil ==> !b
    ensures IsBst(t) ==> (b <==> v in Elements(t))
  {
    match t
    case Nil => false
    case Node(x, l, r) =>
      if v < x then Contains(l, v)
      else if v > x then Contains(r, v)
      else true
  }

  /** Inserting a value the search tree already holds returns the same tree,
      so the tree never holds a value twice. */
  lemma {:induction false} InsertPresentIsNoOp(t: IntTree, v: int)
    requires IsBst(t) && v in Elements(t)
    ensures Insert(t, v) == t
  {
    match t
    case Node(x, l, r) =>
      if v < x {
        InsertPresentIsNoOp(l, v);
      } else if v > x {
        InsertPresentIsNoOp(r, v);
      }
  }

  /** Each insertion of a new value adds exactly one node; inserting a value
      already present adds none. */
  lemma {:induction false} InsertSize(t: IntTree, v: int)
    requires IsBst(t)
    ensures Size(Insert(t, v)) == Size(t) + (if v in Elements(t) then 0 else 1)
  {
    match t
    case Nil =>
    case Node(x, l, r) =>
      if v < x {
        InsertSize(l, v);
        assert v !in Elements(r);
      } else if v > x {
        InsertSize(r, v);
        assert v !in Elements(l);
      }
  }

  /** After inserting a value into a search tree, Contains finds it. */
  lemma InsertThenContains(t: IntTree, v: int, w: int)
    requires IsBst(t)
    ensures Contains(Insert(t, v), v)
    ensures Contains(Insert(t, v), w) <==> w == v || Contains(t, w)
  {
  }

  /** The tree the program builds from the nil tree with 5, 3, 10 and 2. */
  function SampleTree(): (t: IntTree)
    ensures IsBst(t)
    ensures Elements(t) == {5, 3, 10, 2}
  {
    Insert(Insert(Insert(Insert(Nil, 5), 3), 10), 2)
  }

  /** The program's queries on that tree: 2 is found and 12 is not. */
  lemma SampleQueries()
    ensures Contains(SampleTree(), 2)
    ensures !Contains(SampleTree(), 12)
  {
  }
}
