/** The count tables of a binarized probabilistic context-free grammar and the
    rule probabilities estimated from them (CKYParser.q1 and CKYParser.q2). */
module Grammar {

  type Symbol = string
  type Word = string

  /** A word seen fewer times than this in training is rare. */
  const RareThreshold: nat := 5

  /** The placeholder word that stands for every rare or unseen word. */
  const Rare: Word := "_RARE_"

  /** The four dictionaries a loaded parser holds. */
  datatype Grammar = Grammar(
    unary: map<(Symbol, Word), nat>,
    binary: map<(Symbol, Symbol, Symbol), nat>,
    nonterm: map<Symbol, nat>,
    wordcounts: map<Word, nat>)

  /** Every rule's left-hand symbol has a positive total: without this, q1 and
      q2 fail on a missing key or divide by zero. */
  predicate WellFormed(g: Grammar) {
    && (forall k :: k in g.unary ==> k.0 in g.nonterm && g.nonterm[k.0] > 0)
    && (forall k :: k in g.binary ==> k.0 in g.nonterm && g.nonterm[k.0] > 0)
  }

  /** No rule occurs more often than its left-hand symbol, as holds for counts
      taken from a treebank. */
  predicate Bounded(g: Grammar) {
    && WellFormed(g)
    && (forall k :: k in g.unary ==> g.unary[k] <= g.nonterm[k.0])
    && (forall k :: k in g.binary ==> g.binary[k] <= g.nonterm[k.0])
  }

  /** A word is rare when it is absent from the frequency table or seen fewer
      than RareThreshold times. */
  predicate IsRare(g: Grammar, word: Word) {
    word !in g.wordcounts || g.wordcounts[word] < RareThreshold
  }

  /** The relative frequency count / total, exactly. */
  function Ratio(count: nat, total: nat): (r: real)
    requires total > 0
    ensures 0.0 <= r
    ensures r > 0.0 <==> count > 0
    ensures r <= 1.0 <==> count <= total
  {
    count as real / total as real
  }

  /** The probability of the unary rule sym -> word, falling back to the
      rule sym -> _RARE_ for rare and unseen words. */
  function Q1(g: Grammar, sym: Symbol, word: Word): (p: real)
    requires WellFormed(g)
    ensures 0.0 <= p
  {
    if (sym, word) in g.unary then
      Ratio(g.unary[(sym, word)], g.nonterm[sym])
    else if word in g.wordcounts && g.wordcounts[word] < RareThreshold && (sym, Rare) in g.unary then
      Ratio(g.unary[(sym, Rare)], g.nonterm[sym])
    else if word !in g.wordcounts && (sym, Rare) in g.unary then
      Ratio(g.unary[(sym, Rare)], g.nonterm[sym])
    else
      0.0
  }

  /** The probability of the binary rule sym -> y1 y2. */
  function Q2(g: Grammar, sym: Symbol, y1: Symbol, y2: Symbol): (p: real)
    requires WellFormed(g)
    ensures 0.0 <= p
  {
    if (sym, y1, y2) in g.binary then Ratio(g.binary[(sym, y1, y2)], g.nonterm[sym]) else 0.0
  }

  /** An exact unary rule wins, even for a rare word. */
  lemma Q1Exact(g: Grammar, sym: Symbol, word: Word)
    requires WellFormed(g)
    requires (sym, word) in g.unary
    ensures Q1(g, sym, word) == g.unary[(sym, word)] as real / g.nonterm[sym] as real
  {
  }

  /** Without an exact rule, the _RARE_ rule is used exactly when the word is
      rare and that rule exists; otherwise the probability is 0. */
  lemma Q1Fallback(g: Grammar, sym: Symbol, word: Word)
    requires WellFormed(g)
    requires (sym, word) !in g.unary
    ensures IsRare(g, word) && (sym, Rare) in g.unary ==>
              Q1(g, sym, word) == g.unary[(sym, Rare)] as real / g.nonterm[sym] as real
    ensures !(IsRare(g, word) && (sym, Rare) in g.unary) ==> Q1(g, sym, word) == 0.0
  {
  }

  /** q1 is positive only through a rule of sym with a positive count. */
  lemma Q1Positive(g: Grammar, sym: Symbol, word: Word)
    requires WellFormed(g)
    ensures Q1(g, sym, word) > 0.0 <==>
              || ((sym, word) in g.unary && g.unary[(sym, word)] > 0)
              || ((sym, word) !in g.unary && IsRare(g, word) && (sym, Rare) in g.unary && g.unary[(sym, Rare)] > 0)
  {
  }

  /** q2 is the rule's relative frequency when the rule exists, else 0. */
  lemma Q2Lookup(g: Grammar, sym: Symbol, y1: Symbol, y2: Symbol)
    requires WellFormed(g)
    ensures (sym, y1, y2) in g.binary ==>
              Q2(g, sym, y1, y2) == g.binary[(sym, y1, y2)] as real / g.nonterm[sym] as real
    ensures (sym, y1, y2) !in g.binary ==> Q2(g, sym, y1, y2) == 0.0
  {
  }

  /** With rule counts bounded by their totals, q1 is a probability. */
  lemma Q1Bounded(g: Grammar, sym: Symbol, word: Word)
    requires Bounded(g)
    ensures 0.0 <= Q1(g, sym, word) <= 1.0
  {
  }

  /** With rule counts bounded by their totals, q2 is a probability. */
  lemma Q2Bounded(g: Grammar, sym: Symbol, y1: Symbol, y2: Symbol)
    requires Bounded(g)
    ensures 0.0 <= Q2(g, sym, y1, y2) <= 1.0
  {
  }

  /** Q1Bounded as an implication, for callers that do not know whether the
      counts are bounded. */
  lemma Q1BoundedIf(g: Grammar, sym: Symbol, word: Word)
    requires WellFormed(g)
    ensures Bounded(g) ==> Q1(g, sym, word) <= 1.0
  {
    if Bounded(g) {
      Q1Bounded(g, sym, word);
    }
  }

  /** Q2Bounded as an implication, for callers that do not know whether the
      counts are bounded. */
  lemma Q2BoundedIf(g: Grammar, sym: Symbol, y1: Symbol, y2: Symbol)
    requires WellFormed(g)
    ensures Bounded(g) ==> Q2(g, sym, y1, y2) <= 1.0
  {
    if Bounded(g) {
      Q2Bounded(g, sym, y1, y2);
    }
  }
}
