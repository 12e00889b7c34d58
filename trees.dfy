/** The parse tree that CKYParser.getJson rebuilds from the backpointer table,
    its JSON-array rendering, and what the chart guarantees about it. */
module Trees {

  import opened Wrappers
  import opened Grammar
  import opened Chart

  /** A binarized parse tree: a preterminal over one word, or a binary rule node. */
  datatype Tree = Leaf(sym: Symbol, word: Word) | Node(sym: Symbol, left: Tree, right: Tree)

  /** The words at the leaves, read left to right. */
  function Leaves(t: Tree): (r: seq<Word>)
    ensures |r| >= 1
  {
    match t
    case Leaf(_, word) => [word]
    case Node(_, l, r) => Leaves(l) + Leaves(r)
  }

  /** The probability the grammar gives to the tree: q1 at each leaf, q2 at each node. */
  function Prob(g: Grammar, t: Tree): (p: real)
    requires WellFormed(g)
    ensures 0.0 <= p
  {
    match t
    case Leaf(sym, word) => Q1(g, sym, word)
    case Node(sym, l, r) =>
      var p := Q2(g, sym, l.sym, r.sym);
      MulNonneg(p, Prob(g, l), Prob(g, r));
      Mul3(p, Prob(g, l), Prob(g, r))
  }

  /** The JSON text getJson builds: ["sym", "word"] for a leaf and
      ["sym", left, right] for a node, with no escaping of the text. */
  function Render(t: Tree): (r: string)
    ensures |r| >= 2 && r[0] == '[' && r[|r| - 1] == ']'
  {
    match t
    case Leaf(sym, word) => "[\"" + sym + "\", \"" + word + "\"]"
    case Node(sym, l, r) => "[\"" + sym + "\", " + Render(l) + ", " + Render(r) + "]"
  }

  /** Every backpointer stored above the diagonal splits its own span. */
  predicate Closed(bp: Table<map<Symbol, Split>>) {
    forall a: nat, b: nat {:trigger Within(bp[a][b], a, b)} :: a < b < |bp| && b < |bp[a]| ==> Within(bp[a][b], a, b)
  }

  /** Every backpointer of a cell over a..b splits a..b. */
  predicate Within(cell: map<Symbol, Split>, a: nat, b: nat) {
    forall x :: x in cell ==> a <= cell[x].at < b
  }

  /** getJson's recursion over the backpointer table, building the tree rather
      than its text; None stands for the KeyError of a missing backpointer. */
  function Rebuild(bp: Table<map<Symbol, Split>>, w: seq<Word>, st: nat, ed: nat, sym: Symbol): (r: Option<Tree>)
    requires st <= ed < |w| && Square(bp, |w|)
    requires Closed(bp)
    ensures r.Some? ==> r.value.sym == sym
    decreases ed - st
  {
    if st == ed then Some(Leaf(sym, w[st]))
    else if sym !in bp[st][ed] then None
    else
      assert Within(bp[st][ed], st, ed);
      var x := bp[st][ed][sym];
      var l := Rebuild(bp, w, st, x.at, x.left);
      var r := Rebuild(bp, w, x.at + 1, ed, x.right);
      if l.None? || r.None? then None
      else Some(Node(sym, l.value, r.value))
  }

  /** The leaves of the rebuilt tree, read left to right, are the words of its span. */
  lemma {:induction false} RebuildLeaves(bp: Table<map<Symbol, Split>>, w: seq<Word>, st: nat, ed: nat, sym: Symbol, t: Tree)
    requires st <= ed < |w| && Square(bp, |w|) && Closed(bp)
    requires Rebuild(bp, w, st, ed, sym) == Some(t)
    ensures Leaves(t) == w[st..ed + 1]
    decreases ed - st, 1
  {
    if st < ed {
      var x := RebuildNode(bp, w, st, ed, sym, t);
      NodeLeaves(bp, w, st, x.at, ed, t);
    }
  }

  /** The inductive step of RebuildLeaves, for a node split at m. */
  lemma {:induction false} NodeLeaves(bp: Table<map<Symbol, Split>>, w: seq<Word>, st: nat, m: nat, ed: nat, t: Tree)
    requires st <= m < ed < |w| && Square(bp, |w|) && Closed(bp) && t.Node?
    requires Rebuild(bp, w, st, m, t.left.sym) == Some(t.left)
    requires Rebuild(bp, w, m + 1, ed, t.right.sym) == Some(t.right)
    ensures Leaves(t) == w[st..ed + 1]
    decreases ed - st, 0
  {
    RebuildLeaves(bp, w, st, m, t.left.sym, t.left);
    RebuildLeaves(bp, w, m + 1, ed, t.right.sym, t.right);
    LeavesNode(t, w, st, m + 1, ed + 1);
  }

  /** A node's leaves are its left leaves followed by its right leaves, so two
      adjacent slices of the words join into one. */
  lemma LeavesNode(t: Tree, w: seq<Word>, a: nat, m: nat, b: nat)
    requires t.Node? && a <= m <= b <= |w|
    requires Leaves(t.left) == w[a..m] && Leaves(t.right) == w[m..b]
    ensures Leaves(t) == w[a..b]
  {
    assert w[a..m] + w[m..b] == w[a..b];
  }

  /** CKYParser.getJson: the JSON text of the tree under the backpointers, or
      None where the source raises KeyError. */
  function GetJson(bp: Table<map<Symbol, Split>>, w: seq<Word>, st: nat, ed: nat, sym: Symbol): (r: Option<string>)
    requires st <= ed < |w| && Square(bp, |w|)
    requires Closed(bp)
    ensures st == ed ==> r == Some("[\"" + sym + "\", \"" + w[st] + "\"]")
  {
    var t := Rebuild(bp, w, st, ed, sym);
    if t.Some? then Some(Render(t.value)) else None
  }

  /** The facts about a filled chart that getJson's tree relies on, cell by cell. */
  ghost predicate Consistent(g: Grammar, w: seq<Word>, pi: Table<map<Symbol, real>>, bp: Table<map<Symbol, Split>>)
  {
    && WellFormed(g)
    && Square(pi, |w|) && Square(bp, |w|)
    && Closed(bp)
    && forall a: nat, b: nat :: a <= b < |w| ==> CellOk(g, w, pi, bp, a, b)
  }

  /** A cell over a..b: on the diagonal it holds q1; every probability in it is
      non-negative; above the diagonal a symbol has a backpointer exactly where
      its probability is positive, and the backpointer splits a..b into two
      cells whose product with the rule's q2 is that probability. */
  ghost predicate CellOk(g: Grammar, w: seq<Word>, pi: Table<map<Symbol, real>>, bp: Table<map<Symbol, Split>>, a: nat, b: nat)
  {
    && WellFormed(g) && a <= b < |w|
    && Square(pi, |w|) && Square(bp, |w|)
    && (a == b ==> forall x :: Get(pi[a][a], x) == Q1(g, x, w[a]))
    && (forall x :: 0.0 <= Get(pi[a][b], x))
    && (a < b ==> forall x :: x in bp[a][b] <==> 0.0 < Get(pi[a][b], x))
    && (a < b ==> forall x :: x in bp[a][b] ==> Explained(g, pi, a, b, x, bp[a][b][x]))
  }

  /** The backpointer y of x over a..b reproduces the probability stored for
      x from two positive halves. */
  predicate Explained(g: Grammar, pi: Table<map<Symbol, real>>, a: nat, b: nat, x: Symbol, y: Split)
  {
    && WellFormed(g) && Square(pi, |pi|) && a <= y.at < b < |pi|
    && Get(pi[a][b], x) == Mul3(Q2(g, x, y.left, y.right), Get(pi[a][y.at], y.left), Get(pi[y.at + 1][b], y.right))
    && 0.0 < Get(pi[a][y.at], y.left) && 0.0 < Get(pi[y.at + 1][b], y.right)
  }

  /** No rule of the list and no split of a..b gives a larger product than the
      probability stored for the rule's left-hand symbol. */
  predicate Maximal(g: Grammar, rules: seq<Rule>, pi: Table<map<Symbol, real>>, a: nat, b: nat)
  {
    && WellFormed(g) && Square(pi, |pi|) && a < b < |pi|
    && forall s: nat, r :: a <= s < b && r in rules ==>
         Mul3(Q2(g, r.0, r.1, r.2), Get(pi[a][s], r.1), Get(pi[s + 1][b], r.2)) <= Get(pi[a][b], r.0)
  }

  /** Every span of a filled chart is maximal. */
  predicate AllMaximal(g: Grammar, rules: seq<Rule>, w: seq<Word>, pi: Table<map<Symbol, real>>)
  {
    forall a: nat, b: nat :: a < b < |w| ==> Maximal(g, rules, pi, a, b)
  }

  /** The chart FillChart leaves behind is consistent and maximal. */
  lemma FilledChart(g: Grammar, rules: seq<Rule>, w: seq<Word>, pi: Table<map<Symbol, real>>, bp: Table<map<Symbol, Split>>)
    requires WellFormed(g)
    requires Square(pi, |w|) && Square(bp, |w|)
    requires forall a: nat, b: nat :: a <= b < |w| ==> ProbsOk(g, rules, w, a, b, pi[a][b]) && BacksOk(g, rules, w, a, b, bp[a][b])
    ensures Consistent(g, w, pi, bp) && AllMaximal(g, rules, w, pi)
  {
    forall a: nat, b: nat | a < b < |w| ensures Within(bp[a][b], a, b) {
      forall x | x in bp[a][b] ensures a <= bp[a][b][x].at < b {
        assert BacksOk(g, rules, w, a, b, bp[a][b]);
        BackInRange(g, rules, w, a, b, x, bp[a][b]);
      }
    }
    forall a: nat, b: nat | a <= b < |w| ensures CellOk(g, w, pi, bp, a, b) {
      FilledCell(g, rules, w, pi, bp, a, b);
    }
    forall a: nat, b: nat | a < b < |w| ensures Maximal(g, rules, pi, a, b) {
      forall s: nat, r | a <= s < b && r in rules
        ensures Mul3(Q2(g, r.0, r.1, r.2), Get(pi[a][s], r.1), Get(pi[s + 1][b], r.2)) <= Get(pi[a][b], r.0)
      {
        assert ProbsOk(g, rules, w, a, b, pi[a][b]);
        assert ProbsOk(g, rules, w, a, s, pi[a][s]);
        assert ProbsOk(g, rules, w, s + 1, b, pi[s + 1][b]);
        CandidateBelowBest(g, rules, w, a, b, s, r);
      }
    }
  }

  lemma BackInRange(g: Grammar, rules: seq<Rule>, w: seq<Word>, a: nat, b: nat, x: Symbol, m: map<Symbol, Split>)
    requires WellFormed(g) && a < b < |w| && BacksOk(g, rules, w, a, b, m) && x in m
    ensures a <= m[x].at < b
  {
    assert GetBack(m, x) == Best(g, rules, w, a, b, x).back;
    var y := BestHalves(g, rules, w, a, b, x);
  }

  lemma FilledCell(g: Grammar, rules: seq<Rule>, w: seq<Word>, pi: Table<map<Symbol, real>>, bp: Table<map<Symbol, Split>>,
                   a: nat, b: nat)
    requires WellFormed(g) && a <= b < |w|
    requires Square(pi, |w|) && Square(bp, |w|)
    requires forall a': nat, b': nat :: a' <= b' < |w| ==> ProbsOk(g, rules, w, a', b', pi[a'][b'])
    requires BacksOk(g, rules, w, a, b, bp[a][b])
    ensures CellOk(g, w, pi, bp, a, b)
  {
    assert ProbsOk(g, rules, w, a, b, pi[a][b]);
    if a < b {
      forall x ensures x in bp[a][b] <==> 0.0 < Get(pi[a][b], x) {
        assert GetBack(bp[a][b], x) == Best(g, rules, w, a, b, x).back;
        assert Get(pi[a][b], x) == Best(g, rules, w, a, b, x).prob;
        BestBackIffPositive(g, rules, w, a, b, x);
      }
      forall x | x in bp[a][b] ensures Explained(g, pi, a, b, x, bp[a][b][x]) {
        assert GetBack(bp[a][b], x) == Best(g, rules, w, a, b, x).back;
        BestBackIffPositive(g, rules, w, a, b, x);
        var y := BestHalves(g, rules, w, a, b, x);
        CellExplained(g, rules, w, pi, a, b, x, y);
      }
    }
  }

  lemma CellExplained(g: Grammar, rules: seq<Rule>, w: seq<Word>, pi: Table<map<Symbol, real>>, a: nat, b: nat, x: Symbol, y: Split)
    requires WellFormed(g) && a <= y.at < b < |w|
    requires Square(pi, |w|)
    requires forall a': nat, b': nat :: a' <= b' < |w| ==> ProbsOk(g, rules, w, a', b', pi[a'][b'])
    requires 0.0 < Best(g, rules, w, a, b, x).prob
    requires Best(g, rules, w, a, b, x).prob ==
               Mul3(Q2(g, x, y.left, y.right), Best(g, rules, w, a, y.at, y.left).prob, Best(g, rules, w, y.at + 1, b, y.right).prob)
    ensures Explained(g, pi, a, b, x, y)
  {
    Mul3Positive(Q2(g, x, y.left, y.right), Best(g, rules, w, a, y.at, y.left).prob, Best(g, rules, w, y.at + 1, b, y.right).prob);
    assert ProbsOk(g, rules, w, a, b, pi[a][b]);
    assert ProbsOk(g, rules, w, a, y.at, pi[a][y.at]);
    assert ProbsOk(g, rules, w, y.at + 1, b, pi[y.at + 1][b]);
  }

  lemma BestBackIffPositive(g: Grammar, rules: seq<Rule>, w: seq<Word>, i: nat, j: nat, sym: Symbol)
    requires WellFormed(g) && i < j < |w|
    ensures Best(g, rules, w, i, j, sym).back.Some? <==> 0.0 < Best(g, rules, w, i, j, sym).prob
  {
    BestIsMaximum(g, rules, w, i, j, sym);
  }

  /** No candidate exceeds the chart entry it competes for. */
  lemma CandidateBelowBest(g: Grammar, rules: seq<Rule>, w: seq<Word>, a: nat, b: nat, s: nat, r: Rule)
    requires WellFormed(g) && a <= s < b < |w| && r in rules
    ensures Mul3(Q2(g, r.0, r.1, r.2), Best(g, rules, w, a, s, r.1).prob, Best(g, rules, w, s + 1, b, r.2).prob)
              <= Best(g, rules, w, a, b, r.0).prob
  {
    var x := Split(r.1, r.2, s);
    var pl := Best(g, rules, w, a, s, r.1).prob;
    var pr := Best(g, rules, w, s + 1, b, r.2).prob;
    CandidateFromChart(g, rules, w, a, b, r.0, x, pl, pr);
    CandidateAtMostBest(g, rules, w, a, b, r.0, x);
  }

  lemma CandidateAtMostBest(g: Grammar, rules: seq<Rule>, w: seq<Word>, i: nat, j: nat, sym: Symbol, x: Split)
    requires WellFormed(g) && i <= x.at < j < |w| && (sym, x.left, x.right) in rules
    ensures CandidateValue(g, rules, w, i, j, sym, x) <= Best(g, rules, w, i, j, sym).prob
  {
    BestIsMaximum(g, rules, w, i, j, sym);
  }

  /** The split stored for a span and the product it stands for. */
  lemma BestHalves(g: Grammar, rules: seq<Rule>, w: seq<Word>, i: nat, j: nat, sym: Symbol) returns (x: Split)
    requires WellFormed(g) && i < j < |w| && Best(g, rules, w, i, j, sym).back.Some?
    ensures Best(g, rules, w, i, j, sym).back == Some(x) && i <= x.at < j
    ensures Best(g, rules, w, i, j, sym).prob ==
              Mul3(Q2(g, sym, x.left, x.right), Best(g, rules, w, i, x.at, x.left).prob, Best(g, rules, w, x.at + 1, j, x.right).prob)
  {
    BestIsMaximum(g, rules, w, i, j, sym);
    x := Best(g, rules, w, i, j, sym).back.value;
    var pl := Best(g, rules, w, i, x.at, x.left).prob;
    var pr := Best(g, rules, w, x.at + 1, j, x.right).prob;
    CandidateFromChart(g, rules, w, i, j, sym, x, pl, pr);
  }

  lemma Mul3Positive(a: real, b: real, c: real)
    requires 0.0 <= a && 0.0 <= b && 0.0 <= c && 0.0 < Mul3(a, b, c)
    ensures 0.0 < a && 0.0 < b && 0.0 < c
  {
  }

  lemma Mul3Mono(a: real, b: real, c: real, b': real, c': real)
    requires 0.0 <= a && 0.0 <= b <= b' && 0.0 <= c <= c'
    ensures Mul3(a, b, c) <= Mul3(a, b', c')
  {
    MulMono(a, b, b');
    assert 0.0 <= a * b;
    MulMono(a * b, c, c');
    MulMono(c', a * b, a * b');
    assert a * b * c <= a * b * c' <= a * b' * c';
  }

  /** getJson finds a tree exactly for a single word or a span whose
      probability is positive. */
  lemma RebuildExists(g: Grammar, w: seq<Word>, pi: Table<map<Symbol, real>>, bp: Table<map<Symbol, Split>>,
                       st: nat, ed: nat, sym: Symbol)
    requires Consistent(g, w, pi, bp) && st <= ed < |w|
    ensures Rebuild(bp, w, st, ed, sym).Some? <==> st == ed || 0.0 < Get(pi[st][ed], sym)
  {
    if st < ed {
      assert CellOk(g, w, pi, bp, st, ed);
      if 0.0 < Get(pi[st][ed], sym) {
        RebuildFound(g, w, pi, bp, st, ed, sym);
      }
    }
  }

  /** A backpointer leads to a complete tree: every cell it reaches is positive. */
  lemma {:induction false} RebuildFound(g: Grammar, w: seq<Word>, pi: Table<map<Symbol, real>>, bp: Table<map<Symbol, Split>>,
                                        st: nat, ed: nat, sym: Symbol)
    requires Consistent(g, w, pi, bp) && st <= ed < |w|
    requires st == ed || 0.0 < Get(pi[st][ed], sym)
    ensures Rebuild(bp, w, st, ed, sym).Some?
    decreases ed - st
  {
    if st < ed {
      assert CellOk(g, w, pi, bp, st, ed);
      var y := bp[st][ed][sym];
      assert Explained(g, pi, st, ed, sym, y);
      RebuildFound(g, w, pi, bp, st, y.at, y.left);
      RebuildFound(g, w, pi, bp, y.at + 1, ed, y.right);
    }
  }


  /** The tree getJson rebuilds has exactly the probability stored for its span. */
  lemma {:induction false} RebuildProb(g: Grammar, w: seq<Word>, pi: Table<map<Symbol, real>>, bp: Table<map<Symbol, Split>>,
                                       st: nat, ed: nat, sym: Symbol, t: Tree)
    requires Consistent(g, w, pi, bp) && st <= ed < |w| && Rebuild(bp, w, st, ed, sym) == Some(t)
    ensures Prob(g, t) == Get(pi[st][ed], sym)
    decreases ed - st
  {
    if st == ed {
      assert CellOk(g, w, pi, bp, st, st);
    } else {
      var y := RebuildNode(bp, w, st, ed, sym, t);
      ExplainedAt(g, w, pi, bp, st, ed, sym);
      RebuildProb(g, w, pi, bp, st, y.at, y.left, t.left);
      RebuildProb(g, w, pi, bp, y.at + 1, ed, y.right, t.right);
      NodeProb(g, t, Get(pi[st][ed], sym), Q2(g, sym, y.left, y.right), Get(pi[st][y.at], y.left), Get(pi[y.at + 1][ed], y.right));
    }
  }

  /** One step of the rebuild: a node built from the backpointer of its span. */
  lemma RebuildNode(bp: Table<map<Symbol, Split>>, w: seq<Word>, st: nat, ed: nat, sym: Symbol, t: Tree) returns (y: Split)
    requires st < ed < |w| && Square(bp, |w|) && Closed(bp) && Rebuild(bp, w, st, ed, sym) == Some(t)
    ensures sym in bp[st][ed] && y == bp[st][ed][sym] && st <= y.at < ed
    ensures t.Node? && t.sym == sym && t.left.sym == y.left && t.right.sym == y.right
    ensures Rebuild(bp, w, st, y.at, y.left) == Some(t.left)
    ensures Rebuild(bp, w, y.at + 1, ed, y.right) == Some(t.right)
  {
    assert Within(bp[st][ed], st, ed);
    y := bp[st][ed][sym];
  }

  /** The backpointer stored for a symbol over a..b explains its probability. */
  lemma ExplainedAt(g: Grammar, w: seq<Word>, pi: Table<map<Symbol, real>>, bp: Table<map<Symbol, Split>>, a: nat, b: nat, x: Symbol)
    requires Consistent(g, w, pi, bp) && a < b < |w| && x in bp[a][b]
    ensures Explained(g, pi, a, b, x, bp[a][b][x])
  {
    assert CellOk(g, w, pi, bp, a, b);
  }

  lemma NodeProb(g: Grammar, t: Tree, v: real, p: real, pl: real, pr: real)
    requires WellFormed(g) && t.Node? && v == Mul3(p, pl, pr)
    requires p == Q2(g, t.sym, t.left.sym, t.right.sym) && Prob(g, t.left) == pl && Prob(g, t.right) == pr
    ensures Prob(g, t) == v
  {
  }

  /** Every cell of the backpointer table holds its specified backpointers. */
  ghost predicate BacksFilled(g: Grammar, rules: seq<Rule>, w: seq<Word>, bp: Table<map<Symbol, Split>>)
    requires WellFormed(g) && Square(bp, |w|)
  {
    forall a: nat, b: nat :: a <= b < |w| ==> BacksOk(g, rules, w, a, b, bp[a][b])
  }

  /** The nodes of t, read as a tree over the words from position i on: each
      node's span a..b, its symbol and the split it makes. */
  function NodeSplits(t: Tree, i: nat): (r: set<(nat, nat, Symbol, Split)>)
    ensures t.Leaf? <==> r == {}
    decreases t
  {
    match t
    case Leaf(_, _) => {}
    case Node(sym, l, r) =>
      {(i, i + |Leaves(t)| - 1, sym, Split(l.sym, r.sym, i + |Leaves(l)| - 1))}
        + NodeSplits(l, i) + NodeSplits(r, i + |Leaves(l)|)
  }

  /** Every node of t, read over the words from position i on, splits its
      span where the chart's first maximum for its symbol does. */
  ghost predicate FollowsBest(g: Grammar, rules: seq<Rule>, w: seq<Word>, i: nat, t: Tree)
    requires WellFormed(g)
  {
    forall n :: n in NodeSplits(t, i) ==> n.0 <= n.1 < |w| && Best(g, rules, w, n.0, n.1, n.2).back == Some(n.3)
  }

  /** A tree getJson rebuilds from the specified backpointers follows the
      first maximum at every node, not only at its root. */
  lemma RebuildFollows(g: Grammar, rules: seq<Rule>, w: seq<Word>, bp: Table<map<Symbol, Split>>,
                       st: nat, ed: nat, sym: Symbol, t: Tree)
    requires WellFormed(g) && st <= ed < |w| && Square(bp, |w|) && Closed(bp)
    requires BacksFilled(g, rules, w, bp)
    requires Rebuild(bp, w, st, ed, sym) == Some(t)
    ensures FollowsBest(g, rules, w, st, t)
  {
    RebuildStored(bp, w, st, ed, sym, t);
    forall n | n in NodeSplits(t, st)
      ensures n.0 <= n.1 < |w| && Best(g, rules, w, n.0, n.1, n.2).back == Some(n.3)
    {
      BackIsBest(g, rules, w, bp, n.0, n.1, n.2, n.3);
    }
  }

  /** Every node of the rebuilt tree is a backpointer stored in the table. */
  lemma {:induction false} RebuildStored(bp: Table<map<Symbol, Split>>, w: seq<Word>, st: nat, ed: nat, sym: Symbol, t: Tree)
    requires st <= ed < |w| && Square(bp, |w|) && Closed(bp)
    requires Rebuild(bp, w, st, ed, sym) == Some(t)
    ensures forall n :: n in NodeSplits(t, st) ==> n.0 < n.1 < |w| && n.2 in bp[n.0][n.1] && bp[n.0][n.1][n.2] == n.3
    decreases ed - st
  {
    if st < ed {
      var y := RebuildNode(bp, w, st, ed, sym, t);
      RebuildSize(bp, w, st, ed, sym, t);
      RebuildSize(bp, w, st, y.at, y.left, t.left);
      RebuildStored(bp, w, st, y.at, y.left, t.left);
      RebuildStored(bp, w, y.at + 1, ed, y.right, t.right);
      NodeSplitsOf(t, st, ed, y);
    }
  }

  /** The nodes of a node: itself over st..ed, and the nodes of its halves. */
  lemma NodeSplitsOf(t: Tree, st: nat, ed: nat, y: Split)
    requires t.Node? && |Leaves(t)| == ed - st + 1 && y.at == st + |Leaves(t.left)| - 1
    requires y.left == t.left.sym && y.right == t.right.sym
    ensures forall n :: n in NodeSplits(t, st) <==>
              n == (st, ed, t.sym, y) || n in NodeSplits(t.left, st) || n in NodeSplits(t.right, y.at + 1)
  {
  }

  /** The rebuilt tree over st..ed has ed - st + 1 leaves. */
  lemma RebuildSize(bp: Table<map<Symbol, Split>>, w: seq<Word>, st: nat, ed: nat, sym: Symbol, t: Tree)
    requires st <= ed < |w| && Square(bp, |w|) && Closed(bp)
    requires Rebuild(bp, w, st, ed, sym) == Some(t)
    ensures |Leaves(t)| == ed - st + 1
  {
    RebuildLeaves(bp, w, st, ed, sym, t);
  }

  /** The backpointer table of a filled chart holds Best's backpointer. */
  lemma BackIsBest(g: Grammar, rules: seq<Rule>, w: seq<Word>, bp: Table<map<Symbol, Split>>, a: nat, b: nat, sym: Symbol, y: Split)
    requires WellFormed(g) && a <= b < |w| && Square(bp, |w|)
    requires BacksFilled(g, rules, w, bp)
    requires sym in bp[a][b] && bp[a][b][sym] == y
    ensures Best(g, rules, w, a, b, sym).back == Some(y)
  {
    assert BacksOk(g, rules, w, a, b, bp[a][b]);
    assert GetBack(bp[a][b], sym) == Some(y);
  }

  /** The tree getJson rebuilds for sym over the whole sentence: its leaves are
      the sentence, its probability is the one stored for sym, a tree over two
      or more words splits where the stored backpointer says, and when the
      backpointers are the specified ones every node follows the first maximum. */
  lemma RootTree(g: Grammar, rules: seq<Rule>, w: seq<Word>, pi: Table<map<Symbol, real>>, bp: Table<map<Symbol, Split>>,
                 sym: Symbol, t: Tree)
    requires Consistent(g, w, pi, bp) && |w| > 0 && Rebuild(bp, w, 0, |w| - 1, sym) == Some(t)
    requires BacksFilled(g, rules, w, bp)
    ensures Leaves(t) == w && Prob(g, t) == Get(pi[0][|w| - 1], sym)
    ensures |w| > 1 ==>
              t.Node? && GetBack(bp[0][|w| - 1], sym) == Some(Split(t.left.sym, t.right.sym, |Leaves(t.left)| - 1))
    ensures FollowsBest(g, rules, w, 0, t)
  {
    var n := |w|;
    RebuildFollows(g, rules, w, bp, 0, n - 1, sym, t);
    RebuildLeaves(bp, w, 0, n - 1, sym, t);
    assert w[0..n] == w;
    RebuildProb(g, w, pi, bp, 0, n - 1, sym, t);
    if n > 1 {
      var y := RebuildNode(bp, w, 0, n - 1, sym, t);
      RebuildLeaves(bp, w, 0, y.at, y.left, t.left);
    }
  }

  /** No tree of sym over the whole sentence is more probable than the chart's
      entry for sym over it. */
  lemma OptimalRoot(g: Grammar, rules: seq<Rule>, w: seq<Word>, pi: Table<map<Symbol, real>>,
                    bp: Table<map<Symbol, Split>>, sym: Symbol)
    requires Consistent(g, w, pi, bp) && AllMaximal(g, rules, w, pi) && |w| > 0
    requires forall k :: k in g.binary ==> k in rules
    ensures forall t: Tree :: t.sym == sym && Leaves(t) == w ==> Prob(g, t) <= Get(pi[0][|w| - 1], sym)
  {
    forall t: Tree | t.sym == sym && Leaves(t) == w
      ensures Prob(g, t) <= Get(pi[0][|w| - 1], sym)
    {
      assert w[0..|w|] == w;
      Optimal(g, rules, w, pi, bp, 0, |w| - 1, t);
    }
  }

  /** Viterbi optimality: when the rules enumerate every binary rule, no tree
      over w[i..j] is more probable than the chart's entry for its root. */
  lemma {:induction false} Optimal(g: Grammar, rules: seq<Rule>, w: seq<Word>, pi: Table<map<Symbol, real>>,
                                   bp: Table<map<Symbol, Split>>, i: nat, j: nat, t: Tree)
    requires Consistent(g, w, pi, bp) && AllMaximal(g, rules, w, pi) && i <= j < |w|
    requires forall k :: k in g.binary ==> k in rules
    requires Leaves(t) == w[i..j + 1]
    ensures Prob(g, t) <= Get(pi[i][j], t.sym)
    decreases t
  {
    match t
    case Leaf(sym, word) =>
      assert word == Leaves(t)[0] == w[i];
      assert CellOk(g, w, pi, bp, i, i);
    case Node(sym, l, r) =>
      var s := i + |Leaves(l)| - 1;
      assert Leaves(l) == Leaves(t)[..|Leaves(l)|] == w[i..s + 1];
      assert Leaves(r) == Leaves(t)[|Leaves(l)|..] == w[s + 1..j + 1];
      Optimal(g, rules, w, pi, bp, i, s, l);
      Optimal(g, rules, w, pi, bp, s + 1, j, r);
      OptimalNode(g, rules, w, pi, bp, i, s, j, t);
  }

  lemma OptimalNode(g: Grammar, rules: seq<Rule>, w: seq<Word>, pi: Table<map<Symbol, real>>,
                    bp: Table<map<Symbol, Split>>, i: nat, s: nat, j: nat, t: Tree)
    requires Consistent(g, w, pi, bp) && AllMaximal(g, rules, w, pi) && i <= s < j < |w| && t.Node?
    requires forall k :: k in g.binary ==> k in rules
    requires Prob(g, t.left) <= Get(pi[i][s], t.left.sym)
    requires Prob(g, t.right) <= Get(pi[s + 1][j], t.right.sym)
    ensures Prob(g, t) <= Get(pi[i][j], t.sym)
  {
    var r := (t.sym, t.left.sym, t.right.sym);
    var p := Q2(g, r.0, r.1, r.2);
    var pl := Get(pi[i][s], r.1);
    var pr := Get(pi[s + 1][j], r.2);
    assert CellOk(g, w, pi, bp, i, s) && CellOk(g, w, pi, bp, s + 1, j);
    Mul3Mono(p, Prob(g, t.left), Prob(g, t.right), pl, pr);
    if r in g.binary {
      assert Maximal(g, rules, pi, i, j);
    } else {
      assert p == 0.0;
      assert Mul3(p, pl, pr) == 0.0 * pl * pr == 0.0;
      assert CellOk(g, w, pi, bp, i, j);
    }
  }
}
