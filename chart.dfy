/** The probability chart and backpointer table of CKYParser.parse: a
    specification of every cell (Best) and the imperative fill proved against it. */
module Chart {

  import opened Wrappers
  import opened Grammar

  /** A binary rule (sym, y1, y2), as a key of the binary table. */
  type Rule = (Symbol, Symbol, Symbol)

  /** A backpointer (y1, y2, s): the rule's right-hand symbols and the split. */
  datatype Split = Split(left: Symbol, right: Symbol, at: nat)

  /** A chart cell entry: the best probability and the backpointer that led to it. */
  datatype Entry = Entry(prob: real, back: Option<Split>)

  /** Reading a probability cell, a defaultdict(float): an absent symbol reads as 0. */
  function Get(cell: map<Symbol, real>, sym: Symbol): real {
    if sym in cell then cell[sym] else 0.0
  }

  /** Reading a backpointer cell, where an absent symbol has no backpointer. */
  function GetBack(cell: map<Symbol, Split>, sym: Symbol): Option<Split> {
    if sym in cell then Some(cell[sym]) else None
  }

  /** The split points i .. t-1 of one rule, in increasing order. */
  function Splits(y1: Symbol, y2: Symbol, i: nat, t: nat): (r: seq<Split>)
    ensures |r| == if t <= i then 0 else t - i
    ensures forall k :: 0 <= k < |r| ==> r[k] == Split(y1, y2, i + k)
    decreases t
  {
    if t <= i then [] else Splits(y1, y2, i, t - 1) + [Split(y1, y2, t - 1)]
  }

  /** The candidates for sym over the span i..j, in the order the parser tries
      them: rule after rule, and for each rule with left-hand side sym every
      split point from i to j-1. */
  function Cands(rules: seq<Rule>, sym: Symbol, i: nat, j: nat): (r: seq<Split>)
    ensures j <= i ==> r == []
    decreases |rules|
  {
    if rules == [] then []
    else
      var rule := rules[|rules| - 1];
      Cands(rules[..|rules| - 1], sym, i, j) + (if rule.0 == sym then Splits(rule.1, rule.2, i, j) else [])
  }

  /** Every candidate is a rule of sym at a split point inside the span. */
  lemma {:induction false} CandsSound(rules: seq<Rule>, sym: Symbol, i: nat, j: nat)
    ensures forall k :: 0 <= k < |Cands(rules, sym, i, j)| ==>
              i <= Cands(rules, sym, i, j)[k].at < j && (sym, Cands(rules, sym, i, j)[k].left, Cands(rules, sym, i, j)[k].right) in rules
    decreases |rules|
  {
    if rules != [] {
      var front, rule := rules[..|rules| - 1], rules[|rules| - 1];
      CandsSound(front, sym, i, j);
      assert rules == front + [rule];
      var c: seq<Split>, tail: seq<Split> := Cands(front, sym, i, j), if rule.0 == sym then Splits(rule.1, rule.2, i, j) else [];
      forall k | 0 <= k < |c + tail|
        ensures i <= (c + tail)[k].at < j && (sym, (c + tail)[k].left, (c + tail)[k].right) in rules
      {
        if k < |c| {
          assert (c + tail)[k] == c[k];
        } else {
          assert (c + tail)[k] == tail[k - |c|];
        }
      }
    }
  }

  /** The running maximum over valued candidates taken in order: it starts at
      0 with no backpointer and is replaced only by a strictly greater value. */
  function Scan(vals: seq<(Split, real)>): (e: Entry)
    ensures 0.0 <= e.prob
    ensures e.back.None? <==> e.prob == 0.0
    ensures (forall k :: 0 <= k < |vals| ==> vals[k].1 <= 1.0) ==> e.prob <= 1.0
    decreases |vals|
  {
    if vals == [] then Entry(0.0, None)
    else
      Step(Scan(vals[..|vals| - 1]), vals[|vals| - 1].0, vals[|vals| - 1].1)
  }

  /** One update of the running maximum (line 98): the candidate x of value v
      replaces e only when v is strictly greater. */
  function Step(e: Entry, x: Split, v: real): (r: Entry)
    ensures e.prob <= r.prob && v <= r.prob
    ensures v <= e.prob ==> r == e
    ensures r != e ==> r == Entry(v, Some(x))
  {
    if v > e.prob then Entry(v, Some(x)) else e
  }

  /** The chart entry of sym over the span i..j of the sentence w: q1 on a single
      word, otherwise the running maximum over the candidates. */
  function Best(g: Grammar, rules: seq<Rule>, w: seq<Word>, i: nat, j: nat, sym: Symbol): (e: Entry)
    requires WellFormed(g) && i <= j < |w|
    ensures 0.0 <= e.prob
    ensures Bounded(g) ==> e.prob <= 1.0
    decreases j - i, 2
  {
    if i == j then
      Q1BoundedIf(g, sym, w[i]);
      Entry(Q1(g, sym, w[i]), None)
    else
      CandsSound(rules, sym, i, j);
      Scan(Valued(g, rules, w, i, j, sym, Cands(rules, sym, i, j)))
  }

  /** Each candidate paired with its value. */
  function Valued(g: Grammar, rules: seq<Rule>, w: seq<Word>, i: nat, j: nat, sym: Symbol, c: seq<Split>): (r: seq<(Split, real)>)
    requires WellFormed(g) && i <= j < |w|
    requires forall k :: 0 <= k < |c| ==> i <= c[k].at < j
    ensures |r| == |c|
    ensures forall k :: 0 <= k < |r| ==> 0.0 <= r[k].1
    ensures Bounded(g) ==> forall k :: 0 <= k < |r| ==> r[k].1 <= 1.0
    decreases j - i, 1, |c|
  {
    if c == [] then []
    else
      var x := c[|c| - 1];
      Valued(g, rules, w, i, j, sym, c[..|c| - 1]) + [(x, CandidateValue(g, rules, w, i, j, sym, x))]
  }

  /** The probability of deriving w[i..j] from sym through the candidate x. */
  function CandidateValue(g: Grammar, rules: seq<Rule>, w: seq<Word>, i: nat, j: nat, sym: Symbol, x: Split): (v: real)
    requires WellFormed(g) && i <= x.at < j < |w|
    ensures 0.0 <= v
    ensures Bounded(g) ==> v <= 1.0
    decreases j - i, 0
  {
    var p := Q2(g, sym, x.left, x.right);
    var pl := Best(g, rules, w, i, x.at, x.left).prob;
    var pr := Best(g, rules, w, x.at + 1, j, x.right).prob;
    MulNonneg(p, pl, pr);
    Q2BoundedIf(g, sym, x.left, x.right);
    MulAtMostOneIf(Bounded(g), p, pl, pr);
    Mul3(p, pl, pr)
  }

  /** The product of a rule probability and the probabilities of its two halves,
      kept behind a name so that equal factors are matched before any arithmetic. */
  function Mul3(a: real, b: real, c: real): real {
    a * b * c
  }

  lemma MulNonneg(a: real, b: real, c: real)
    requires 0.0 <= a && 0.0 <= b && 0.0 <= c
    ensures 0.0 <= Mul3(a, b, c)
  {
    assert 0.0 <= a * b;
  }

  /** A product of three factors in [0, 1] stays in [0, 1], when bounded holds. */
  lemma MulAtMostOneIf(bounded: bool, a: real, b: real, c: real)
    requires 0.0 <= a && 0.0 <= b && 0.0 <= c
    requires bounded ==> a <= 1.0 && b <= 1.0 && c <= 1.0
    ensures bounded ==> Mul3(a, b, c) <= 1.0
  {
    if bounded {
      MulAtMostOne(a, b, c);
    }
  }

  lemma MulAtMostOne(a: real, b: real, c: real)
    requires 0.0 <= a <= 1.0 && 0.0 <= b <= 1.0 && 0.0 <= c <= 1.0
    ensures a * b * c <= 1.0
  {
    MulMono(a, 0.0, b);
    MulMono(a, b, 1.0);
    assert a * b <= 1.0;
    MulMono(a * b, c, 1.0);
    assert a * b * c <= a * b;
  }

  lemma MulMono(a: real, b: real, c: real)
    requires 0.0 <= a && b <= c
    ensures a * b <= a * c
  {
    assert a * c - a * b == a * (c - b);
  }


  /** The running maximum bounds every value, and when positive it carries
      the first candidate, in order, that attains it. */
  lemma {:induction false} ScanFirstMax(vals: seq<(Split, real)>)
    ensures forall k :: 0 <= k < |vals| ==> vals[k].1 <= Scan(vals).prob
    ensures Scan(vals).back.Some? ==>
              exists k :: 0 <= k < |vals| && vals[k] == (Scan(vals).back.value, Scan(vals).prob) &&
                forall k' :: 0 <= k' < k ==> vals[k'].1 < Scan(vals).prob
    decreases |vals|
  {
    if vals != [] {
      var front := vals[..|vals| - 1];
      ScanFirstMax(front);
      var e' := Scan(front);
      var e := Scan(vals);
      forall k | 0 <= k < |front| ensures vals[k].1 <= e.prob {
        assert vals[k] == front[k];
      }
      if vals[|vals| - 1].1 > e'.prob {
        forall k' | 0 <= k' < |vals| - 1 ensures vals[k'].1 < e.prob {
          assert vals[k'] == front[k'];
        }
      } else if e.back.Some? {
        var k :| 0 <= k < |front| && front[k] == (e'.back.value, e'.prob) &&
          forall k' :: 0 <= k' < k ==> front[k'].1 < e'.prob;
        assert vals[k] == front[k];
        forall k' | 0 <= k' < k ensures vals[k'].1 < e.prob {
          assert vals[k'] == front[k'];
        }
      }
    }
  }

  lemma ScanSnoc(vals: seq<(Split, real)>, x: Split, v: real)
    ensures Scan(vals + [(x, v)]) == Step(Scan(vals), x, v)
  {
    assert (vals + [(x, v)])[..|vals|] == vals;
  }

  /** Every rule of sym with every split point in i..j-1 is among the candidates. */
  lemma {:induction false} CandsComplete(rules: seq<Rule>, sym: Symbol, y1: Symbol, y2: Symbol, s: nat, i: nat, j: nat)
    requires (sym, y1, y2) in rules && i <= s < j
    ensures Split(y1, y2, s) in Cands(rules, sym, i, j)
    decreases |rules|
  {
    var front, rule := rules[..|rules| - 1], rules[|rules| - 1];
    if rule == (sym, y1, y2) {
      var tail := Splits(y1, y2, i, j);
      assert tail[s - i] == Split(y1, y2, s);
    } else {
      assert rules == front + [rule];
      CandsComplete(front, sym, y1, y2, s, i, j);
    }
  }

  lemma CandsSnoc(rules: seq<Rule>, r: nat, sym: Symbol, i: nat, j: nat)
    requires r < |rules|
    ensures Cands(rules[..r + 1], sym, i, j) ==
              Cands(rules[..r], sym, i, j) + (if rules[r].0 == sym then Splits(rules[r].1, rules[r].2, i, j) else [])
  {
    assert rules[..r + 1][..r] == rules[..r];
  }


  /** The k-th valued candidate is the k-th candidate with its value. */
  lemma {:induction false} ValuedAt(g: Grammar, rules: seq<Rule>, w: seq<Word>, i: nat, j: nat, sym: Symbol, c: seq<Split>, k: nat)
    requires WellFormed(g) && i <= j < |w|
    requires forall k :: 0 <= k < |c| ==> i <= c[k].at < j
    requires k < |c|
    ensures Valued(g, rules, w, i, j, sym, c)[k] == (c[k], CandidateValue(g, rules, w, i, j, sym, c[k]))
    decreases |c|
  {
    if k < |c| - 1 {
      ValuedAt(g, rules, w, i, j, sym, c[..|c| - 1], k);
    }
  }

  /** Over a span of two or more words, the chart entry is the maximum over all
      rules of sym and all split points of the candidate values, 0 when none is
      positive; its backpointer names a rule of sym, a split inside the span and
      a candidate that attains the maximum. */
  lemma BestIsMaximum(g: Grammar, rules: seq<Rule>, w: seq<Word>, i: nat, j: nat, sym: Symbol)
    requires WellFormed(g) && i < j < |w|
    ensures forall y1, y2, s :: (sym, y1, y2) in rules && i <= s < j ==>
              CandidateValue(g, rules, w, i, j, sym, Split(y1, y2, s)) <= Best(g, rules, w, i, j, sym).prob
    ensures var e := Best(g, rules, w, i, j, sym);
            e.back.Some? ==>
              && (sym, e.back.value.left, e.back.value.right) in rules
              && i <= e.back.value.at < j
              && CandidateValue(g, rules, w, i, j, sym, e.back.value) == e.prob
    ensures Best(g, rules, w, i, j, sym).back.None? <==> Best(g, rules, w, i, j, sym).prob == 0.0
  {
    CandsSound(rules, sym, i, j);
    var c := Cands(rules, sym, i, j);
    var vals := Valued(g, rules, w, i, j, sym, c);
    ScanFirstMax(vals);
    forall y1, y2, s | (sym, y1, y2) in rules && i <= s < j
      ensures CandidateValue(g, rules, w, i, j, sym, Split(y1, y2, s)) <= Best(g, rules, w, i, j, sym).prob
    {
      CandsComplete(rules, sym, y1, y2, s, i, j);
      var k :| 0 <= k < |c| && c[k] == Split(y1, y2, s);
      ValuedAt(g, rules, w, i, j, sym, c, k);
    }
    var e := Best(g, rules, w, i, j, sym);
    if e.back.Some? {
      var k :| 0 <= k < |vals| && vals[k] == (e.back.value, e.prob);
      ValuedAt(g, rules, w, i, j, sym, c, k);
    }
  }

  /** The backpointer is the first candidate, in the parser's enumeration order,
      whose value is the cell's maximum: k is its position. */
  lemma BestIsFirstMaximum(g: Grammar, rules: seq<Rule>, w: seq<Word>, i: nat, j: nat, sym: Symbol) returns (k: nat)
    requires WellFormed(g) && i < j < |w|
    requires Best(g, rules, w, i, j, sym).back.Some?
    ensures k < |Cands(rules, sym, i, j)|
    ensures Cands(rules, sym, i, j)[k] == Best(g, rules, w, i, j, sym).back.value
    ensures forall k' :: 0 <= k' < k ==>
              && i <= Cands(rules, sym, i, j)[k'].at < j
              && CandidateValue(g, rules, w, i, j, sym, Cands(rules, sym, i, j)[k']) < Best(g, rules, w, i, j, sym).prob
  {
    CandsSound(rules, sym, i, j);
    var c := Cands(rules, sym, i, j);
    var vals := Valued(g, rules, w, i, j, sym, c);
    ScanFirstMax(vals);
    var e := Best(g, rules, w, i, j, sym);
    k :| 0 <= k < |vals| && vals[k] == (e.back.value, e.prob) &&
      forall k' :: 0 <= k' < k ==> vals[k'].1 < e.prob;
    ValuedAt(g, rules, w, i, j, sym, c, k);
    forall k' | 0 <= k' < k ensures CandidateValue(g, rules, w, i, j, sym, c[k']) < e.prob {
      ValuedAt(g, rules, w, i, j, sym, c, k');
    }
  }

  /** The diagonal cell of one word (lines 87-90): q1 of every nonterminal. */
  method DiagonalCell(g: Grammar, word: Word) returns (cell: map<Symbol, real>)
    requires WellFormed(g)
    ensures cell.Keys == g.nonterm.Keys
    ensures forall x :: Get(cell, x) == Q1(g, x, word)
  {
    cell := map[];
    var todo := g.nonterm.Keys;
    while todo != {}
      invariant todo <= g.nonterm.Keys
      invariant cell.Keys == g.nonterm.Keys - todo
      invariant forall x :: x in cell ==> cell[x] == Q1(g, x, word)
      decreases todo
    {
      var x :| x in todo;
      cell := cell[x := Q1(g, x, word)];
      todo := todo - {x};
    }
  }

  /** The candidates c paired with their values under f, in order. */
  function ValuedBy(f: Split -> real, c: seq<Split>): (r: seq<(Split, real)>)
    ensures |r| == |c|
    decreases |c|
  {
    if c == [] then []
    else ValuedBy(f, c[..|c| - 1]) + [(c[|c| - 1], f(c[|c| - 1]))]
  }

  /** Appending a candidate to the scan is one Step of the running maximum. */
  lemma ScanBySnoc(f: Split -> real, c: seq<Split>, x: Split)
    ensures Scan(ValuedBy(f, c + [x])) == Step(Scan(ValuedBy(f, c)), x, f(x))
  {
    assert (c + [x])[..|c|] == c;
    ScanSnoc(ValuedBy(f, c), x, f(x));
  }

  /** Scanning one more split point of a rule is one Step of the running maximum. */
  lemma NextSplit(f: Split -> real, done: seq<Split>, y1: Symbol, y2: Symbol, i: nat, s: nat)
    requires i < s
    ensures Scan(ValuedBy(f, done + Splits(y1, y2, i, s))) ==
              Step(Scan(ValuedBy(f, done + Splits(y1, y2, i, s - 1))), Split(y1, y2, s - 1), f(Split(y1, y2, s - 1)))
  {
    var x := Split(y1, y2, s - 1);
    assert Splits(y1, y2, i, s) == Splits(y1, y2, i, s - 1) + [x];
    AppendAssoc(done, Splits(y1, y2, i, s - 1), [x]);
    ScanBySnoc(f, done + Splits(y1, y2, i, s - 1), x);
  }

  lemma AppendAssoc<T>(a: seq<T>, b: seq<T>, c: seq<T>)
    ensures a + (b + c) == (a + b) + c
  {
  }

  /** A table of cells indexed [row][column], as the nested lists pi and bp. */
  type Table<T> = seq<seq<T>>

  /** An n-by-n table. */
  predicate Square<T>(t: Table<T>, n: nat) {
    |t| == n && forall a :: 0 <= a < n ==> |t[a]| == n
  }

  /** The cell over a..b of a table, empty outside it. */
  function At(t: Table<map<Symbol, real>>, a: nat, b: nat): map<Symbol, real> {
    if a < |t| && b < |t[a]| then t[a][b] else map[]
  }

  /** The value of candidate x for sym over i..j as the loop at lines 95-99
      reads it from the chart t: q2 of the rule times the entries of its two
      halves. */
  function ChartValue(g: Grammar, t: Table<map<Symbol, real>>, i: nat, j: nat, sym: Symbol, x: Split): real
    requires WellFormed(g)
  {
    Mul3(Q2(g, sym, x.left, x.right), Get(At(t, i, x.at), x.left), Get(At(t, x.at + 1, j), x.right))
  }

  /** ChartValue as a valuation of the candidates of sym over i..j. */
  function ChartValues(g: Grammar, t: Table<map<Symbol, real>>, i: nat, j: nat, sym: Symbol): Split -> real
    requires WellFormed(g)
  {
    x => ChartValue(g, t, i, j, sym, x)
  }

  /** When the chart holds the specified entries of every shorter span, the
      values read from it are the candidate values. */
  lemma {:induction false} ChartValuedIsValued(g: Grammar, rules: seq<Rule>, w: seq<Word>, t: Table<map<Symbol, real>>,
                                               i: nat, j: nat, sym: Symbol, c: seq<Split>)
    requires WellFormed(g) && i < j < |w| && Square(t, |w|)
    requires forall a: nat, b: nat :: i <= a <= b <= j && b - a < j - i ==> ProbsOk(g, rules, w, a, b, t[a][b])
    requires forall k :: 0 <= k < |c| ==> i <= c[k].at < j
    ensures ValuedBy(ChartValues(g, t, i, j, sym), c) == Valued(g, rules, w, i, j, sym, c)
    decreases |c|
  {
    if c != [] {
      var x := c[|c| - 1];
      ChartValuedIsValued(g, rules, w, t, i, j, sym, c[..|c| - 1]);
      assert ProbsOk(g, rules, w, i, x.at, t[i][x.at]);
      assert ProbsOk(g, rules, w, x.at + 1, j, t[x.at + 1][j]);
      CandidateFromChart(g, rules, w, i, j, sym, x, Get(At(t, i, x.at), x.left), Get(At(t, x.at + 1, j), x.right));
    }
  }

  /** The running maximum continued from e0 over the split points i..s-1 of
      the rule sym -> y1 y2, each valued by f. */
  function ScanSplits(f: Split -> real, y1: Symbol, y2: Symbol, e0: Entry, i: nat, s: nat): Entry
    decreases s
  {
    if s <= i then e0
    else Step(ScanSplits(f, y1, y2, e0, i, s - 1), Split(y1, y2, s - 1), f(Split(y1, y2, s - 1)))
  }

  /** Continuing a scan over one rule's splits is scanning the candidates
      done followed by those splits. */
  lemma {:induction false} ScanSplitsIsScan(f: Split -> real, y1: Symbol, y2: Symbol, done: seq<Split>, i: nat, s: nat)
    ensures ScanSplits(f, y1, y2, Scan(ValuedBy(f, done)), i, s) == Scan(ValuedBy(f, done + Splits(y1, y2, i, s)))
    decreases s
  {
    if s <= i {
      assert done + Splits(y1, y2, i, s) == done;
    } else {
      ScanSplitsIsScan(f, y1, y2, done, i, s - 1);
      NextSplit(f, done, y1, y2, i, s);
    }
  }

  /** The inner loop of lines 95-99 for one rule sym -> y1 y2: every split point
      in increasing order, the entry of sym replaced only by a strictly greater
      candidate read from the chart; no other symbol's entry changes. */
  method ScanRule(g: Grammar, pi: Table<map<Symbol, real>>, i: nat, j: nat, sym: Symbol, y1: Symbol, y2: Symbol,
                  cell0: map<Symbol, real>, back0: map<Symbol, Split>)
    returns (cell: map<Symbol, real>, back: map<Symbol, Split>)
    requires WellFormed(g) && Square(pi, |pi|) && i < j < |pi|
    ensures Entry(Get(cell, sym), GetBack(back, sym)) ==
              ScanSplits(ChartValues(g, pi, i, j, sym), y1, y2, Entry(Get(cell0, sym), GetBack(back0, sym)), i, j)
    ensures forall x :: x != sym ==> Get(cell, x) == Get(cell0, x) && GetBack(back, x) == GetBack(back0, x)
  {
    ghost var f := ChartValues(g, pi, i, j, sym);
    ghost var e0 := Entry(Get(cell0, sym), GetBack(back0, sym));
    cell, back := cell0, back0;
    var s := i;
    while s < j
      invariant i <= s <= j
      invariant Entry(Get(cell, sym), GetBack(back, sym)) == ScanSplits(f, y1, y2, e0, i, s)
      invariant forall x :: x != sym ==> Get(cell, x) == Get(cell0, x) && GetBack(back, x) == GetBack(back0, x)
    {
      var v := Mul3(Q2(g, sym, y1, y2), Get(pi[i][s], y1), Get(pi[s + 1][j], y2));
      var x := Split(y1, y2, s);
      assert v == f(x);
      if v > Get(cell, sym) {
        cell := cell[sym := v];
        back := back[sym := x];
      }
      s := s + 1;
    }
  }

  /** The loop of lines 95-99 over the rules: every rule in order, each one's
      splits as in ScanRule. Every symbol ends with the running maximum over its
      candidates. */
  method ScanAllRules(g: Grammar, pi: Table<map<Symbol, real>>, rules: seq<Rule>, i: nat, j: nat)
    returns (cell: map<Symbol, real>, back: map<Symbol, Split>)
    requires WellFormed(g) && Square(pi, |pi|) && i < j < |pi|
    ensures forall x :: Entry(Get(cell, x), GetBack(back, x)) == Scan(ValuedBy(ChartValues(g, pi, i, j, x), Cands(rules, x, i, j)))
  {
    cell, back := map[], map[];
    var r := 0;
    while r < |rules|
      invariant 0 <= r <= |rules|
      invariant forall x :: Entry(Get(cell, x), GetBack(back, x)) == Scan(ValuedBy(ChartValues(g, pi, i, j, x), Cands(rules[..r], x, i, j)))
    {
      var rule := rules[r];
      ScanSplitsIsScan(ChartValues(g, pi, i, j, rule.0), rule.1, rule.2, Cands(rules[..r], rule.0, i, j), i, j);
      cell, back := ScanRule(g, pi, i, j, rule.0, rule.1, rule.2, cell, back);
      forall x
        ensures Entry(Get(cell, x), GetBack(back, x)) == Scan(ValuedBy(ChartValues(g, pi, i, j, x), Cands(rules[..r + 1], x, i, j)))
      {
        CandsSnoc(rules, r, x, i, j);
        if x != rule.0 {
          assert Cands(rules[..r], x, i, j) + [] == Cands(rules[..r], x, i, j);
        }
      }
      r := r + 1;
    }
    assert rules[..|rules|] == rules;
  }

  /** The cell over the span i..j, filled once every shorter span holds its
      specified entries: each symbol gets its specified probability and
      backpointer. */
  method FillCell(g: Grammar, rules: seq<Rule>, w: seq<Word>, pi: Table<map<Symbol, real>>, i: nat, j: nat)
    returns (cell: map<Symbol, real>, back: map<Symbol, Split>)
    requires WellFormed(g) && i < j < |w| && Square(pi, |w|)
    requires forall a: nat, b: nat :: i <= a <= b <= j && b - a < j - i ==> ProbsOk(g, rules, w, a, b, pi[a][b])
    ensures ProbsOk(g, rules, w, i, j, cell) && BacksOk(g, rules, w, i, j, back)
  {
    cell, back := ScanAllRules(g, pi, rules, i, j);
    forall x | true
      ensures Scan(ValuedBy(ChartValues(g, pi, i, j, x), Cands(rules, x, i, j))) == Best(g, rules, w, i, j, x)
    {
      CandsSound(rules, x, i, j);
      ChartValuedIsValued(g, rules, w, pi, i, j, x, Cands(rules, x, i, j));
    }
  }

  lemma CandidateFromChart(g: Grammar, rules: seq<Rule>, w: seq<Word>, i: nat, j: nat, sym: Symbol, x: Split, pl: real, pr: real)
    requires WellFormed(g) && i <= x.at < j < |w|
    requires pl == Best(g, rules, w, i, x.at, x.left).prob
    requires pr == Best(g, rules, w, x.at + 1, j, x.right).prob
    ensures CandidateValue(g, rules, w, i, j, sym, x) == Mul3(Q2(g, sym, x.left, x.right), pl, pr)
  {
  }


  /** The map m holds the specified probability of every symbol over a..b. */
  ghost predicate ProbsOk(g: Grammar, rules: seq<Rule>, w: seq<Word>, a: nat, b: nat, m: map<Symbol, real>)
    requires WellFormed(g)
  {
    a <= b < |w| && forall x :: Get(m, x) == Best(g, rules, w, a, b, x).prob
  }

  /** The map m holds the specified backpointer of every symbol over a..b. */
  ghost predicate BacksOk(g: Grammar, rules: seq<Rule>, w: seq<Word>, a: nat, b: nat, m: map<Symbol, Split>)
    requires WellFormed(g)
  {
    a <= b < |w| && forall x :: GetBack(m, x) == Best(g, rules, w, a, b, x).back
  }

  /** A one-word span holds q1 of every symbol and no backpointer. */
  lemma DiagonalIsBest(g: Grammar, rules: seq<Rule>, w: seq<Word>, i: nat, cell: map<Symbol, real>)
    requires WellFormed(g) && i < |w|
    requires forall x :: Get(cell, x) == Q1(g, x, w[i])
    ensures ProbsOk(g, rules, w, i, i, cell) && BacksOk(g, rules, w, i, i, map[])
  {
  }

  /** Every cell over spans a..b with b - a < l, or b - a == l and a < i. */
  ghost predicate Filled(g: Grammar, rules: seq<Rule>, w: seq<Word>, pi: Table<map<Symbol, real>>, bp: Table<map<Symbol, Split>>,
                         l: nat, i: nat)
    requires WellFormed(g) && Square(pi, |w|) && Square(bp, |w|)
  {
    forall a: nat, b: nat :: a <= b < |w| && (b - a < l || (b - a == l && a < i)) ==>
      ProbsOk(g, rules, w, a, b, pi[a][b]) && BacksOk(g, rules, w, a, b, bp[a][b])
  }

  /** The assignment t[a][b] = v on nested lists: only that cell changes. */
  function Store<T>(t: Table<T>, a: nat, b: nat, v: T): (r: Table<T>)
    requires a < |t| && b < |t[a]|
    ensures |r| == |t| && forall a' :: 0 <= a' < |t| ==> |r[a']| == |t[a']|
    ensures r[a][b] == v
    ensures forall a', b' :: 0 <= a' < |t| && 0 <= b' < |t[a']| && (a' != a || b' != b) ==> r[a'][b'] == t[a'][b']
  {
    t[a := t[a][b := v]]
  }

  /** The chart of lines 85-99: pi and bp allocated empty, the diagonal set to
      q1 of every nonterminal, then the spans filled in increasing length, each
      length from left to right. Every cell ends up holding its specified
      probability and backpointer. */
  method FillChart(g: Grammar, rules: seq<Rule>, w: seq<Word>)
    returns (pi: Table<map<Symbol, real>>, bp: Table<map<Symbol, Split>>)
    requires WellFormed(g)
    ensures Square(pi, |w|) && Square(bp, |w|)
    ensures forall a: nat, b: nat :: a <= b < |w| ==> ProbsOk(g, rules, w, a, b, pi[a][b]) && BacksOk(g, rules, w, a, b, bp[a][b])
  {
    var n := |w|;
    pi := seq(n, _ => seq(n, _ => map[]));
    bp := seq(n, _ => seq(n, _ => map[]));
    var i := 0;
    while i < n
      invariant 0 <= i <= n
      invariant Square(pi, n) && Square(bp, n)
      invariant forall a, b :: 0 <= a < n && 0 <= b < n ==> bp[a][b] == map[]
      invariant Filled(g, rules, w, pi, bp, 0, i)
    {
      var cell := DiagonalCell(g, w[i]);
      DiagonalIsBest(g, rules, w, i, cell);
      ghost var pi0 := pi;
      pi := Store(pi, i, i, cell);
      forall a: nat, b: nat | a <= b < n && b - a == 0 && a < i + 1
        ensures ProbsOk(g, rules, w, a, b, pi[a][b]) && BacksOk(g, rules, w, a, b, bp[a][b])
      {
        if a != i {
          assert pi[a][b] == pi0[a][b];
        }
      }
      i := i + 1;
    }
    var l := 1;
    while l < n
      invariant 1 <= l
      invariant Square(pi, n) && Square(bp, n)
      invariant Filled(g, rules, w, pi, bp, l, 0)
    {
      i := 0;
      while i < n - l
        invariant 0 <= i <= n - l
        invariant Square(pi, n) && Square(bp, n)
        invariant Filled(g, rules, w, pi, bp, l, i)
      {
        var j := i + l;
        var cell, back := FillCell(g, rules, w, pi, i, j);
        ghost var pi0, bp0 := pi, bp;
        pi := Store(pi, i, j, cell);
        bp := Store(bp, i, j, back);
        forall a: nat, b: nat | a <= b < n && (b - a < l || (b - a == l && a < i + 1))
          ensures ProbsOk(g, rules, w, a, b, pi[a][b]) && BacksOk(g, rules, w, a, b, bp[a][b])
        {
          if a != i || b != j {
            assert pi[a][b] == pi0[a][b] && bp[a][b] == bp0[a][b];
          }
        }
        i := i + 1;
      }
      l := l + 1;
    }
  }
}
