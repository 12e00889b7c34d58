/** The records that CKYParser.load reads, already split into fields, and the
    dictionary accumulation it performs over them. */
module Counts {

  import opened Wrappers
  import opened Grammar

  /** One line of the rule-count file: `<count> <tag> <sym> <rest...>`. */
  datatype CountLine = CountLine(count: nat, tag: string, sym: Symbol, rest: seq<string>)

  /** One line of the word-frequency file: `<word> <count>`. */
  datatype WordLine = WordLine(word: Word, count: nat)

  /** A line carries the fields its tag reads: one word after a UNARYRULE
      symbol, two symbols after a BINARYRULE symbol. */
  predicate Splittable(line: CountLine) {
    && (line.tag == "UNARYRULE" ==> |line.rest| >= 1)
    && (line.tag == "BINARYRULE" ==> |line.rest| >= 2)
  }

  /** The nonterminal total a line adds to, if any. */
  function NontermKey(line: CountLine): Option<Symbol> {
    if line.tag == "NONTERMINAL" then Some(line.sym) else None
  }

  /** The unary rule a line adds to, if any. */
  function UnaryKey(line: CountLine): Option<(Symbol, Word)> {
    if line.tag == "UNARYRULE" && |line.rest| >= 1 then Some((line.sym, line.rest[0])) else None
  }

  /** The binary rule a line adds to, if any. */
  function BinaryKey(line: CountLine): Option<(Symbol, Symbol, Symbol)> {
    if line.tag == "BINARYRULE" && |line.rest| >= 2 then Some((line.sym, line.rest[0], line.rest[1])) else None
  }

  function LineCount(line: CountLine): nat {
    line.count
  }

  function WordKey(line: WordLine): Option<Word> {
    Some(line.word)
  }

  function WordCount(line: WordLine): nat {
    line.count
  }

  /** The value of a count dictionary at k, 0 when k is absent. */
  function Lookup<K>(m: map<K, nat>, k: K): nat {
    if k in m then m[k] else 0
  }

  /** The dictionary obtained from init by adding, line after line, each
      line's count under its key (setdefault(key, 0) then +=). */
  function TallyFrom<R, K>(init: map<K, nat>, rs: seq<R>, key: R -> Option<K>, count: R -> nat): (r: map<K, nat>)
    ensures init.Keys <= r.Keys
    decreases |rs|
  {
    if rs == [] then init
    else AddTo(TallyFrom(init, rs[..|rs| - 1], key, count), key(rs[|rs| - 1]), count(rs[|rs| - 1]))
  }

  /** One line's update: its count added under its key, if it has one. */
  function AddTo<K>(m: map<K, nat>, key: Option<K>, c: nat): (r: map<K, nat>)
    ensures key.None? ==> r == m
    ensures key.Some? ==> r.Keys == m.Keys + {key.value} && r[key.value] == Lookup(m, key.value) + c
    ensures forall k :: k in m && Some(k) != key ==> r[k] == m[k]
  {
    match key
    case None => m
    case Some(k) => m[k := Lookup(m, k) + c]
  }

  /** The sum of the counts of all lines whose key is k. */
  function Total<R, K(==)>(rs: seq<R>, key: R -> Option<K>, count: R -> nat, k: K): nat
    decreases |rs|
  {
    if rs == [] then 0
    else (if key(rs[0]) == Some(k) then count(rs[0]) else 0) + Total(rs[1..], key, count, k)
  }

  lemma {:induction false} TotalSnoc<R, K>(rs: seq<R>, r: R, key: R -> Option<K>, count: R -> nat, k: K)
    ensures Total(rs + [r], key, count, k) == Total(rs, key, count, k) + (if key(r) == Some(k) then count(r) else 0)
    decreases |rs|
  {
    if rs != [] {
      assert (rs + [r])[1..] == rs[1..] + [r];
      TotalSnoc(rs[1..], r, key, count, k);
    }
  }

  /** After the accumulation, a key is present exactly when it was already
      present or some line carries it, and its value is its old value plus the
      sum of the counts of the lines that carry it. */
  lemma {:induction false} TallyIsTotal<R, K>(init: map<K, nat>, rs: seq<R>, key: R -> Option<K>, count: R -> nat, k: K)
    ensures k in TallyFrom(init, rs, key, count) <==>
              k in init || exists i :: 0 <= i < |rs| && key(rs[i]) == Some(k)
    ensures Lookup(TallyFrom(init, rs, key, count), k) == Lookup(init, k) + Total(rs, key, count, k)
    decreases |rs|
  {
    if rs != [] {
      var front, r := rs[..|rs| - 1], rs[|rs| - 1];
      assert rs == front + [r];
      TallyIsTotal(init, front, key, count, k);
      TotalSnoc(front, r, key, count, k);
      if k in init || exists i :: 0 <= i < |rs| && key(rs[i]) == Some(k) {
        if k !in init && key(r) != Some(k) {
          var i :| 0 <= i < |rs| && key(rs[i]) == Some(k);
          assert i < |front| && key(front[i]) == Some(k);
        }
      }
    }
  }

  /** Taking one more line into the accumulation adds its count under its key. */
  lemma TallyNext<R, K>(init: map<K, nat>, rs: seq<R>, k: nat, key: R -> Option<K>, count: R -> nat)
    requires k < |rs|
    ensures TallyFrom(init, rs[..k + 1], key, count) == AddTo(TallyFrom(init, rs[..k], key, count), key(rs[k]), count(rs[k]))
  {
    assert rs[..k + 1][..k] == rs[..k];
  }

  /** A line whose tag is none of NONTERMINAL, UNARYRULE and BINARYRULE leaves
      all three rule tables as they were. */
  lemma {:induction false} UnknownTagIgnored(lines: seq<CountLine>, line: CountLine,
                                              nonterm: map<Symbol, nat>,
                                              unary: map<(Symbol, Word), nat>,
                                              binary: map<(Symbol, Symbol, Symbol), nat>)
    requires line.tag != "NONTERMINAL" && line.tag != "UNARYRULE" && line.tag != "BINARYRULE"
    ensures TallyFrom(nonterm, lines + [line], NontermKey, LineCount) == TallyFrom(nonterm, lines, NontermKey, LineCount)
    ensures TallyFrom(unary, lines + [line], UnaryKey, LineCount) == TallyFrom(unary, lines, UnaryKey, LineCount)
    ensures TallyFrom(binary, lines + [line], BinaryKey, LineCount) == TallyFrom(binary, lines, BinaryKey, LineCount)
  {
    assert (lines + [line])[..|lines|] == lines;
  }
}
