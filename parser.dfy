/** The CKYParser object: four count dictionaries filled in place by load, and
    parse, which fills the chart and rebuilds the tree of the root symbol. */
module Parser {

  import opened Wrappers
  import opened Grammar
  import opened Counts
  import opened Chart
  import opened Trees

  /** The root symbol every parse is read from (lines 101-102). */
  const RootSymbol: Symbol := "SBARQ"

  class CKYParser {
    var unary: map<(Symbol, Word), nat>
    var binary: map<(Symbol, Symbol, Symbol), nat>
    var nonterm: map<Symbol, nat>
    var wordcounts: map<Word, nat>

    /** The four dictionaries as one value. */
    function Tables(): Grammar
      reads this
    {
      Grammar(unary, binary, nonterm, wordcounts)
    }

    /** rules lists the keys of the binary table, in the order iteritems
        yields them. */
    ghost predicate Enumerates(rules: seq<Rule>)
      reads this
    {
      forall r :: r in rules <==> r in binary
    }

    /** The parser starts with empty dictionaries and loads the two files'
        records into them. */
    constructor (counts: seq<CountLine>, words: seq<WordLine>)
      requires forall k :: 0 <= k < |counts| ==> Splittable(counts[k])
      ensures nonterm == TallyFrom(map[], counts, NontermKey, LineCount)
      ensures unary == TallyFrom(map[], counts, UnaryKey, LineCount)
      ensures binary == TallyFrom(map[], counts, BinaryKey, LineCount)
      ensures wordcounts == TallyFrom(map[], words, WordKey, WordCount)
    {
      unary, binary, nonterm, wordcounts := map[], map[], map[], map[];
      new;
      Load(counts, words);
    }

    /** load: every count line adds its count to the entry of its tag's table
        under its key (an unknown tag adds nothing), then every word line adds
        its count to the word's frequency. */
    method Load(counts: seq<CountLine>, words: seq<WordLine>)
      requires forall k :: 0 <= k < |counts| ==> Splittable(counts[k])
      modifies this
      ensures nonterm == TallyFrom(old(nonterm), counts, NontermKey, LineCount)
      ensures unary == TallyFrom(old(unary), counts, UnaryKey, LineCount)
      ensures binary == TallyFrom(old(binary), counts, BinaryKey, LineCount)
      ensures wordcounts == TallyFrom(old(wordcounts), words, WordKey, WordCount)
    {
      var k := 0;
      while k < |counts|
        invariant 0 <= k <= |counts|
        invariant nonterm == TallyFrom(old(nonterm), counts[..k], NontermKey, LineCount)
        invariant unary == TallyFrom(old(unary), counts[..k], UnaryKey, LineCount)
        invariant binary == TallyFrom(old(binary), counts[..k], BinaryKey, LineCount)
        invariant wordcounts == old(wordcounts)
      {
        TallyNext(old(nonterm), counts, k, NontermKey, LineCount);
        TallyNext(old(unary), counts, k, UnaryKey, LineCount);
        TallyNext(old(binary), counts, k, BinaryKey, LineCount);
        AddCountLine(counts[k]);
        k := k + 1;
      }
      assert counts[..k] == counts;
      k := 0;
      while k < |words|
        invariant 0 <= k <= |words|
        invariant wordcounts == TallyFrom(old(wordcounts), words[..k], WordKey, WordCount)
        invariant nonterm == TallyFrom(old(nonterm), counts, NontermKey, LineCount)
        invariant unary == TallyFrom(old(unary), counts, UnaryKey, LineCount)
        invariant binary == TallyFrom(old(binary), counts, BinaryKey, LineCount)
      {
        TallyNext(old(wordcounts), words, k, WordKey, WordCount);
        AddWordLine(words[k]);
        k := k + 1;
      }
      assert words[..k] == words;
    }

    /** One count line of load (lines 31-46): its count added to the entry of
        the table its tag names, under its key; the other tables unchanged. */
    method AddCountLine(line: CountLine)
      requires Splittable(line)
      modifies this
      ensures nonterm == AddTo(old(nonterm), NontermKey(line), line.count)
      ensures unary == AddTo(old(unary), UnaryKey(line), line.count)
      ensures binary == AddTo(old(binary), BinaryKey(line), line.count)
      ensures wordcounts == old(wordcounts)
    {
      if line.tag == "NONTERMINAL" {
        nonterm := nonterm[line.sym := Lookup(nonterm, line.sym) + line.count];
      }
      if line.tag == "UNARYRULE" {
        var key := (line.sym, line.rest[0]);
        unary := unary[key := Lookup(unary, key) + line.count];
      }
      if line.tag == "BINARYRULE" {
        var key := (line.sym, line.rest[0], line.rest[1]);
        binary := binary[key := Lookup(binary, key) + line.count];
      }
    }

    /** One word line of load (lines 52-56): its count added to the word's
        frequency; the rule tables unchanged. */
    method AddWordLine(line: WordLine)
      modifies this
      ensures wordcounts == AddTo(old(wordcounts), WordKey(line), line.count)
      ensures nonterm == old(nonterm) && unary == old(unary) && binary == old(binary)
    {
      wordcounts := wordcounts[line.word := Lookup(wordcounts, line.word) + line.count];
    }

    /** parse: the probability of the root symbol over the whole sentence, and
        the tree (with its JSON text) rebuilt from the backpointers, None where
        getJson meets a missing backpointer. The tree exists exactly for a
        single word or a positive probability; it spans the sentence, its
        probability is the one printed, every node splits at the chart's first
        maximum, and no tree of the root over the sentence is more probable. */
    method Parse(sentence: seq<Word>, rules: seq<Rule>) returns (prob: real, tree: Option<Tree>, json: Option<string>)
      requires |sentence| > 0
      requires WellFormed(Tables()) && Enumerates(rules)
      ensures prob == Best(Tables(), rules, sentence, 0, |sentence| - 1, RootSymbol).prob
      ensures tree.Some? <==> |sentence| == 1 || 0.0 < prob
      ensures tree.Some? ==>
                && tree.value.sym == RootSymbol
                && Leaves(tree.value) == sentence
                && Prob(Tables(), tree.value) == prob
      ensures tree.Some? && |sentence| > 1 ==>
                && tree.value.Node?
                && Best(Tables(), rules, sentence, 0, |sentence| - 1, RootSymbol).back
                   == Some(Split(tree.value.left.sym, tree.value.right.sym, |Leaves(tree.value.left)| - 1))
      ensures tree.Some? ==> FollowsBest(Tables(), rules, sentence, 0, tree.value)
      ensures forall t: Tree :: t.sym == RootSymbol && Leaves(t) == sentence ==> Prob(Tables(), t) <= prob
      ensures json == (if tree.Some? then Some(Render(tree.value)) else None)
    {
      var g := Tables();
      var n := |sentence|;
      var pi, bp := FillChart(g, rules, sentence);
      FilledChart(g, rules, sentence, pi, bp);
      assert ProbsOk(g, rules, sentence, 0, n - 1, pi[0][n - 1]);
      assert BacksOk(g, rules, sentence, 0, n - 1, bp[0][n - 1]);
      prob := Get(pi[0][n - 1], RootSymbol);
      RebuildExists(g, sentence, pi, bp, 0, n - 1, RootSymbol);
      tree := Rebuild(bp, sentence, 0, n - 1, RootSymbol);
      json := GetJson(bp, sentence, 0, n - 1, RootSymbol);
      if tree.Some? {
        RootTree(g, rules, sentence, pi, bp, RootSymbol, tree.value);
      }
      OptimalRoot(g, rules, sentence, pi, bp, RootSymbol);
    }
  }
}
