/**
 * The lexical-diversity experiment (wnu25/experiments/lexical_diversity_evaluation.py):
 * the single-branch baseline narrative, the cleaning of a bullet-list
 * narrative into raw text, the distinct-n-gram ratio of a text, and the
 * collection of per-run results in run order. Tokenisation is NLTK's and is a
 * parameter; thread scheduling is the order of the completions given.
 */
module LexicalDiversity {
  import opened Wrappers
  import Text
  import EventGraphPy
  import RunEvaluation

  // ---------------------------------------------------------------------------
  // extract_raw_text
  // ---------------------------------------------------------------------------

  /** A line Python's `line.strip()` leaves empty. */
  predicate Blank(line: string)
  {
    Text.Strip(line) == ""
  }

  /** One kept line: a leading "- " removed, then whitespace stripped. */
  function CleanLine(line: string): string
  {
    if Text.StartsWith(line, "- ") then Text.Strip(line[2..]) else Text.Strip(line)
  }

  /** The cleaned non-blank lines, in order. */
  function CleanLines(lines: seq<string>): (r: seq<string>)
    ensures |r| <= |lines|
  {
    if |lines| == 0 then []
    else if Blank(lines[0]) then CleanLines(lines[1..])
    else [CleanLine(lines[0])] + CleanLines(lines[1..])
  }

  /**
   * `extract_raw_text`: split on "\n", drop blank lines, clean the others,
   * join them with single spaces and keep only the ASCII characters.
   */
  function ExtractRawText(narrative: string): (r: string)
    ensures Text.IsAscii(r)
    ensures |r| <= |Text.Join(CleanLines(Text.SplitOn(narrative, '\n')), " ")|
  {
    Text.AsciiOnly(Text.Join(CleanLines(Text.SplitOn(narrative, '\n')), " "))
  }

  /** `[t.strip() for t in texts]`. */
  function StripAll(texts: seq<string>): (r: seq<string>)
    ensures |r| == |texts| && forall i :: 0 <= i < |texts| ==> r[i] == Text.Strip(texts[i])
  {
    if |texts| == 0 then [] else [Text.Strip(texts[0])] + StripAll(texts[1..])
  }

  /** A line opening with "-" is never blank, whatever follows. */
  lemma DashLineNotBlank(t: string)
    ensures !Blank("- " + t)
  {
    var s := "- " + t;
    Text.StripIsTrimmedSlice(s);
    assert s[0] == '-' && !Text.IsPySpace(s[0]);
  }

  /** Every bullet line survives the blank filter and cleans back to its stripped text. */
  lemma {:induction false} CleanBullets(texts: seq<string>)
    ensures CleanLines(Text.Bullets(texts)) == StripAll(texts)
  {
    if |texts| > 0 {
      var b := Text.Bullets(texts);
      DashLineNotBlank(texts[0]);
      assert b[0] == "- " + texts[0];
      assert Text.StartsWith(b[0], "- ") && b[0][2..] == texts[0];
      assert b[1..] == Text.Bullets(texts[1..]);
      CleanBullets(texts[1..]);
    }
  }

  /**
   * `extract_raw_text` undoes the "- t" formatting `generate_baseline_path`
   * and `get_top_path` produce: on a bullet list of single-line texts it
   * gives the stripped texts joined by spaces, ASCII only.
   */
  lemma RawTextOfBulleted(texts: seq<string>)
    requires forall i :: 0 <= i < |texts| ==> '\n' !in texts[i]
    ensures ExtractRawText(Text.Bulleted(texts)) == Text.AsciiOnly(Text.Join(StripAll(texts), " "))
  {
    if |texts| == 0 {
      RawTextOfNothing();
      assert Text.Bulleted(texts) == "";
    } else {
      BulletLinesSingle(texts);
      SplitBulleted(texts);
      CleanBullets(texts);
    }
  }

  /** An empty narrative has no raw text. */
  lemma RawTextOfNothing()
    ensures ExtractRawText("") == ""
  {
    assert Text.SplitOn("", '\n') == [""];
    assert Blank("") by {
      Text.StripIsTrimmedSlice("");
    }
    assert CleanLines([""]) == [];
  }

  /** The bullet lines of single-line texts are single lines. */
  lemma BulletLinesSingle(texts: seq<string>)
    requires forall i :: 0 <= i < |texts| ==> '\n' !in texts[i]
    ensures forall i :: 0 <= i < |Text.Bullets(texts)| ==> '\n' !in Text.Bullets(texts)[i]
  {
    var lines := Text.Bullets(texts);
    forall i | 0 <= i < |lines|
      ensures '\n' !in lines[i]
    {
      assert lines[i] == "- " + texts[i];
    }
  }

  /** Splitting a bullet list of single-line texts on "\n" gives back its lines. */
  lemma SplitBulleted(texts: seq<string>)
    requires |texts| >= 1
    requires forall i :: 0 <= i < |Text.Bullets(texts)| ==> '\n' !in Text.Bullets(texts)[i]
    ensures Text.SplitOn(Text.Bulleted(texts), '\n') == Text.Bullets(texts)
  {
    assert "\n" == ['\n'];
    Text.SplitJoin(Text.Bullets(texts), '\n');
  }

  // ---------------------------------------------------------------------------
  // compute_ngram_diversity
  // ---------------------------------------------------------------------------

  /** Python's `str.lower()` on ASCII text: 'A'..'Z' become 'a'..'z'. */
  function LowerAscii(s: string): (r: string)
    ensures |r| == |s|
    ensures forall i :: 0 <= i < |s| ==> r[i] == if 'A' <= s[i] <= 'Z' then (s[i] as int + 32) as char else s[i]
  {
    if |s| == 0 then "" else [if 'A' <= s[0] <= 'Z' then (s[0] as int + 32) as char else s[0]] + LowerAscii(s[1..])
  }

  /** The tokens whose characters are all ASCII, in order. */
  function AsciiTokens(tokens: seq<string>): (r: seq<string>)
    ensures |r| <= |tokens|
    ensures forall i :: 0 <= i < |r| ==> Text.IsAscii(r[i])
    ensures forall t :: t in r <==> t in tokens && Text.IsAscii(t)
  {
    if |tokens| == 0 then []
    else if Text.IsAscii(tokens[0]) then [tokens[0]] + AsciiTokens(tokens[1..])
    else AsciiTokens(tokens[1..])
  }

  /**
   * `nltk.ngrams(tokens, n)`: every window of `n` consecutive tokens, in
   * order; none when `n` is 0 (no iterators to zip) or exceeds the length.
   */
  function Ngrams(tokens: seq<string>, n: nat): (r: seq<seq<string>>)
    ensures n == 0 || |tokens| < n ==> r == []
    ensures 1 <= n <= |tokens| ==> |r| == |tokens| - n + 1
    ensures forall i :: 0 <= i < |r| ==> r[i] == tokens[i..i + n]
  {
    if n == 0 || |tokens| < n then [] else seq(|tokens| - n + 1, i requires 0 <= i <= |tokens| - n => tokens[i..i + n])
  }

  /** The elements of a sequence, as a set (`set(ngrams)`). */
  function Elements<T(==,!new)>(xs: seq<T>): (r: set<T>)
    ensures forall x :: x in r <==> x in xs
  {
    if |xs| == 0 then {} else {xs[0]} + Elements(xs[1..])
  }

  /** No element occurs twice. */
  predicate Distinct<T(==)>(xs: seq<T>)
  {
    forall i, j :: 0 <= i < j < |xs| ==> xs[i] != xs[j]
  }

  /** A sequence has at most as many distinct elements as entries, exactly as many when no entry repeats, and one at least when it is non-empty. */
  lemma {:induction false} ElementsCount<T(!new)>(xs: seq<T>)
    ensures |Elements(xs)| <= |xs|
    ensures |Elements(xs)| == |xs| <==> Distinct(xs)
    ensures |xs| > 0 ==> |Elements(xs)| >= 1
  {
    if |xs| > 0 {
      var rest := xs[1..];
      ElementsCount(rest);
      if xs[0] in Elements(rest) {
        assert Elements(xs) == Elements(rest);
        var j :| 0 <= j < |rest| && rest[j] == xs[0];
        assert xs[0] == xs[j + 1];
      } else {
        assert |Elements(xs)| == 1 + |Elements(rest)|;
        if Distinct(rest) {
          forall i, j | 0 <= i < j < |xs|
            ensures xs[i] != xs[j]
          {
            if i == 0 {
              assert xs[j] == rest[j - 1];
            } else {
              assert xs[i] == rest[i - 1] && xs[j] == rest[j - 1];
            }
          }
        }
        if Distinct(xs) {
          forall i, j | 0 <= i < j < |rest|
            ensures rest[i] != rest[j]
          {
            assert rest[i] == xs[i + 1] && rest[j] == xs[j + 1];
          }
        }
      }
    }
  }

  /**
   * `compute_ngram_diversity(text, n)` on the tokens NLTK's tokenizer made of
   * the lower-cased ASCII text: 0 with fewer tokens than `n` (or no n-grams),
   * else distinct n-grams over all n-grams.
   */
  function NgramDiversity(tokens: seq<string>, n: nat): (r: real)
    ensures |AsciiTokens(tokens)| < n ==> r == 0.0
    ensures 1 <= n <= |AsciiTokens(tokens)| ==> 0.0 < r <= 1.0
    ensures 0.0 <= r <= 1.0
  {
    var ts := AsciiTokens(tokens);
    if |ts| < n then 0.0
    else
      var grams := Ngrams(ts, n);
      if |grams| == 0 then 0.0
      else
        ElementsCount(grams);
        RatioBounds(|Elements(grams)|, |grams|);
        |Elements(grams)| as real / |grams| as real
  }

  /** A ratio of counts `0 < d <= t` lies in (0, 1], and is 1 exactly when `d == t`. */
  lemma RatioBounds(d: nat, t: nat)
    requires 1 <= d <= t
    ensures 0.0 < d as real / t as real <= 1.0
    ensures d as real / t as real == 1.0 <==> d == t
  {
    var x := d as real / t as real;
    assert x * t as real == d as real;
  }

  /** The whole of `compute_ngram_diversity`, with `tokenize` standing for `nltk.word_tokenize`. */
  function ComputeNgramDiversity(text: string, n: nat, tokenize: string -> seq<string>): (r: real)
    ensures 0.0 <= r <= 1.0
  {
    NgramDiversity(tokenize(LowerAscii(Text.AsciiOnly(text))), n)
  }

  /** The ratio is 1 exactly when no n-gram repeats. */
  lemma DiversityOneIffDistinct(tokens: seq<string>, n: nat)
    requires 1 <= n <= |AsciiTokens(tokens)|
    ensures NgramDiversity(tokens, n) == 1.0 <==> Distinct(Ngrams(AsciiTokens(tokens), n))
  {
    var grams := Ngrams(AsciiTokens(tokens), n);
    ElementsCount(grams);
    RatioBounds(|Elements(grams)|, |grams|);
  }

  /** With unigrams, the ratio is 1 exactly when no (ASCII) token repeats. */
  lemma UnigramsDistinct(tokens: seq<string>)
    requires |AsciiTokens(tokens)| >= 1
    ensures NgramDiversity(tokens, 1) == 1.0 <==> Distinct(AsciiTokens(tokens))
  {
    var ts := AsciiTokens(tokens);
    var grams := Ngrams(ts, 1);
    DiversityOneIffDistinct(tokens, 1);
    assert forall i :: 0 <= i < |grams| ==> grams[i] == [ts[i]];
    if Distinct(grams) {
      forall i, j | 0 <= i < j < |ts|
        ensures ts[i] != ts[j]
      {
        assert grams[i] != grams[j];
      }
    }
    if Distinct(ts) {
      forall i, j | 0 <= i < j < |grams|
        ensures grams[i] != grams[j]
      {
        assert grams[i][0] == ts[i] && grams[j][0] == ts[j];
      }
    }
  }

  // ---------------------------------------------------------------------------
  // generate_baseline_path
  // ---------------------------------------------------------------------------

  /**
   * `generate_baseline_path`: a fresh root holding the stub, then while the
   * chain is shorter than `targetLength`, `branchingFactor` generated children
   * of the current node and a move to the first of them; returns the final
   * chain as a "- t" bullet list. Oracle call `i` answers the `i`-th
   * `generate_next_event`; an exception (a raising call, or no child to take
   * when `branchingFactor` is not positive) escapes.
   */
  method GenerateBaselinePath(g: EventGraphPy.EventGraph, stubText: string, targetLength: int, branchingFactor: int,
                              oracle: nat -> string -> Outcome<string>)
    returns (r: Outcome<string>, ghost chain: seq<int>)
    modifies g
    requires g.Valid()
    ensures g.Valid() && RunEvaluation.Extends(old(g.nodes), g.nodes)
    ensures targetLength > 1 && branchingFactor <= 0 ==> r.Thrown?
    ensures branchingFactor >= 1 && RunEvaluation.AlwaysAnswers(oracle) ==> r.Ok?
    ensures r.Ok? ==>
      && |chain| == (if targetLength <= 1 then 1 else targetLength)
      && chain[0] == old(g.nextKey) && chain[0] in g.nodes && g.nodes[chain[0]].text == stubText
      && RunEvaluation.Walked(old(g.nodes)[chain[0] := EventGraphPy.NodeData(stubText, [], [], 0, 0)], 0,
                              g.nodes, g.edges, [chain[0]], chain, branchingFactor, oracle)
      && g.Ancestry(chain[|chain| - 1]) == chain
      && r.value == Text.Bulleted(g.Texts(chain))
  {
    var rootId := g.AddEventNode(stubText, None, None);
    FreshRoot(g, old(g.nodes), rootId);
    ghost var nodes1 := g.nodes;
    AddedExtends(old(g.nodes), rootId, nodes1[rootId]);
    RunEvaluation.WalkedStart(g.nodes, g.edges, 0, [rootId], branchingFactor, oracle);
    var walked := RunEvaluation.WalkFrom(g, rootId, [rootId], g.nodes, g.edges, 0, targetLength, branchingFactor,
                                         oracle, true);
    chain := [];
    if walked.Thrown? {
      r := Thrown;
      return;
    }
    chain := walked.value;
    RunEvaluation.ExtendsTrans(old(g.nodes), nodes1, g.nodes);
    var text := BulletedChain(g, walked.value[|walked.value| - 1], walked.value);
    r := Ok(text);
  }

  /** Adding a fresh node keeps every node there was. */
  lemma AddedExtends(nodes: map<int, EventGraphPy.NodeData>, k: int, d: EventGraphPy.NodeData)
    requires k !in nodes
    ensures RunEvaluation.Extends(nodes, nodes[k := d])
  {
  }

  /** A node just added, with no edge at it, is a chain of its own and has no children. */
  lemma FreshRoot(g: EventGraphPy.EventGraph, nodes0: map<int, EventGraphPy.NodeData>, rootId: int)
    requires g.Valid() && rootId in g.nodes && rootId !in nodes0
    requires forall e :: e in g.edges ==> e.from in nodes0 && e.to in nodes0
    ensures EventGraphPy.ChainOver(g.nodes, g.edges, [rootId])
    ensures EventGraphPy.Successors(g.edges, rootId) == []
  {
    forall e | e in g.edges
      ensures e.from != rootId && e.to != rootId
    {
    }
    EventGraphPy.NoSuccessors(g.edges, rootId);
    assert EventGraphPy.Predecessors(g.edges, rootId) == [];
  }

  /** The chain gathered again from its last node, as the bullet list of its texts. */
  method BulletedChain(g: EventGraphPy.EventGraph, last: int, ghost chain: seq<int>) returns (text: string)
    requires g.Valid() && EventGraphPy.ParentChain(g, chain) && last == chain[|chain| - 1]
    ensures g.Ancestry(last) == chain && text == Text.Bulleted(g.Texts(chain))
  {
    EventGraphPy.AncestryUnique(g, chain);
    var chainIds := RunEvaluation.Regather(g, last, chain);
    text := Text.Bulleted(g.Texts(chainIds));
  }

  // ---------------------------------------------------------------------------
  // Collecting the runs' results by run_idx
  // ---------------------------------------------------------------------------

  /** What `process_single_run` returns for one run. */
  datatype RunResult = RunResult(runIdx: nat, mctsNarrative: string, baselineNarrative: string)

  /**
   * The result stored at slot `k` after the completions `done` (in completion
   * order; `None` for a run whose thread raised): the last result for run `k`.
   */
  function LastAt(done: seq<Option<RunResult>>, k: nat): (r: Option<RunResult>)
    ensures r.Some? ==> r.value.runIdx == k && r in done
  {
    if |done| == 0 then None
    else if done[|done| - 1].Some? && done[|done| - 1].value.runIdx == k then done[|done| - 1]
    else LastAt(done[..|done| - 1], k)
  }

  /** How long the padded lists are after `done`: one past the largest run index seen. */
  function Extent(done: seq<Option<RunResult>>): (r: nat)
    ensures forall o :: o in done && o.Some? ==> o.value.runIdx < r
  {
    if |done| == 0 then 0
    else
      var e := Extent(done[..|done| - 1]);
      assert forall o :: o in done ==> o in done[..|done| - 1] || o == done[|done| - 1];
      if done[|done| - 1].Some? && done[|done| - 1].value.runIdx >= e then done[|done| - 1].value.runIdx + 1 else e
  }

  function MctsOf(o: Option<RunResult>): Option<string>
  {
    if o.Some? then Some(o.value.mctsNarrative) else None
  }

  function BaselineOf(o: Option<RunResult>): Option<string>
  {
    if o.Some? then Some(o.value.baselineNarrative) else None
  }

  /** The padded lists after the completions `done`: slot `k` holds run `k`'s last result. */
  predicate Placed(done: seq<Option<RunResult>>, mcts: seq<Option<string>>, baseline: seq<Option<string>>)
  {
    && |mcts| == |baseline| == Extent(done)
    && (forall k :: 0 <= k < |mcts| ==> mcts[k] == MctsOf(LastAt(done, k)))
    && (forall k :: 0 <= k < |baseline| ==> baseline[k] == BaselineOf(LastAt(done, k)))
  }

  /** One completion stored at its slot, the lists padded with `None` first. */
  method Store(ghost done: seq<Option<RunResult>>, res: RunResult, mcts: seq<Option<string>>, baseline: seq<Option<string>>)
    returns (mcts': seq<Option<string>>, baseline': seq<Option<string>>)
    requires Placed(done, mcts, baseline)
    ensures Placed(done + [Some(res)], mcts', baseline')
  {
    mcts', baseline' := mcts, baseline;
    while |mcts'| <= res.runIdx
      invariant |mcts'| == |baseline'| >= |mcts|
      invariant mcts'[..|mcts|] == mcts && baseline'[..|baseline|] == baseline
      invariant forall k :: |mcts| <= k < |mcts'| ==> mcts'[k] == None && baseline'[k] == None
      invariant |mcts'| <= res.runIdx + 1 || |mcts'| == |mcts|
      decreases res.runIdx - |mcts'|
    {
      mcts' := mcts' + [None];
      baseline' := baseline' + [None];
    }
    mcts' := mcts'[res.runIdx := Some(res.mctsNarrative)];
    baseline' := baseline'[res.runIdx := Some(res.baselineNarrative)];
    ghost var done' := done + [Some(res)];
    assert done'[..|done'| - 1] == done;
    forall k | 0 <= k < |mcts'|
      ensures mcts'[k] == MctsOf(LastAt(done', k)) && baseline'[k] == BaselineOf(LastAt(done', k))
    {
      if k != res.runIdx && k >= |mcts| {
        assert LastAt(done, k).None?;
      }
    }
  }

  /**
   * The collection loop of `run_lexical_diversity_evaluation`: each result is
   * stored at its `run_idx` slot, whatever order the runs completed in, and a
   * crashed run stores nothing.
   */
  method PlaceResults(done: seq<Option<RunResult>>) returns (mcts: seq<Option<string>>, baseline: seq<Option<string>>)
    ensures Placed(done, mcts, baseline)
  {
    mcts, baseline := [], [];
    for i := 0 to |done|
      invariant Placed(done[..i], mcts, baseline)
    {
      assert done[..i + 1] == done[..i] + [done[i]];
      match done[i]
      case None =>
        assert forall k :: LastAt(done[..i + 1], k) == LastAt(done[..i], k);
      case Some(res) =>
        mcts, baseline := Store(done[..i], res, mcts, baseline);
    }
    assert done[..|done|] == done;
  }

  /** `[n for n in slots if n is not None]`. */
  function Present(slots: seq<Option<string>>): (r: seq<string>)
    ensures |r| <= |slots|
    ensures forall x :: x in r <==> Some(x) in slots
  {
    if |slots| == 0 then []
    else if slots[0].Some? then [slots[0].value] + Present(slots[1..])
    else Present(slots[1..])
  }

  /** The narratives kept after the failed runs' slots are dropped, both lists filtered alike. */
  method CollectResults(done: seq<Option<RunResult>>) returns (mcts: seq<string>, baseline: seq<string>)
    ensures mcts == Present(seq(Extent(done), k requires 0 <= k => MctsOf(LastAt(done, k))))
    ensures baseline == Present(seq(Extent(done), k requires 0 <= k => BaselineOf(LastAt(done, k))))
    ensures |mcts| == |baseline|
  {
    var mctsSlots, baselineSlots := PlaceResults(done);
    assert mctsSlots == seq(Extent(done), k requires 0 <= k => MctsOf(LastAt(done, k)));
    assert baselineSlots == seq(Extent(done), k requires 0 <= k => BaselineOf(LastAt(done, k)));
    PresentAligned(mctsSlots, baselineSlots);
    mcts := Present(mctsSlots);
    baseline := Present(baselineSlots);
  }

  /** Two slot lists with their gaps at the same places keep as many entries. */
  lemma {:induction false} PresentAligned(a: seq<Option<string>>, b: seq<Option<string>>)
    requires |a| == |b| && forall k :: 0 <= k < |a| ==> (a[k].Some? <==> b[k].Some?)
    ensures |Present(a)| == |Present(b)|
  {
    if |a| > 0 {
      PresentAligned(a[1..], b[1..]);
    }
  }

  /** No two completed runs share a run index. */
  predicate DistinctRuns(done: seq<Option<RunResult>>)
  {
    forall i, j :: 0 <= i < j < |done| && done[i].Some? && done[j].Some? ==> done[i].value.runIdx != done[j].value.runIdx
  }

  /** With distinct run indices, slot `k` holds the one result for run `k`, if any. */
  lemma {:induction false} LastAtUnique(done: seq<Option<RunResult>>, k: nat, res: RunResult)
    requires DistinctRuns(done)
    ensures LastAt(done, k) == Some(res) <==> Some(res) in done && res.runIdx == k
  {
    if |done| > 0 {
      var init := done[..|done| - 1];
      assert DistinctRuns(init) by {
        forall i, j | 0 <= i < j < |init| && init[i].Some? && init[j].Some?
          ensures init[i].value.runIdx != init[j].value.runIdx
        {
          assert init[i] == done[i] && init[j] == done[j];
        }
      }
      LastAtUnique(init, k, res);
      assert done == init + [done[|done| - 1]];
    }
  }

  /**
   * The stored results do not depend on the completion order: two orders of
   * the same completions with distinct run indices fill every slot alike.
   */
  lemma SlotsOrderIndependent(done1: seq<Option<RunResult>>, done2: seq<Option<RunResult>>, k: nat)
    requires DistinctRuns(done1) && DistinctRuns(done2)
    requires multiset(done1) == multiset(done2)
    ensures LastAt(done1, k) == LastAt(done2, k)
  {
    var a, b := LastAt(done1, k), LastAt(done2, k);
    assert forall x :: x in done1 <==> x in done2 by {
      forall x
        ensures x in done1 <==> x in done2
      {
        assert x in done1 <==> x in multiset(done1);
        assert x in done2 <==> x in multiset(done2);
      }
    }
    if a.Some? {
      LastAtUnique(done1, k, a.value);
      LastAtUnique(done2, k, a.value);
    }
    if b.Some? {
      LastAtUnique(done1, k, b.value);
      LastAtUnique(done2, k, b.value);
    }
  }
}
