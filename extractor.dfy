/**
 * RelationExtractor.extract: one pass over the lines of the text that
 * records the names recognised in each line and counts every name's
 * mentions, then a pass over the recorded lines that adds up the
 * co-occurrence edges. Both passes update dictionaries in place; here they
 * are maps held in local variables and reassigned.
 */
module Extractor {
  import opened Results
  import opened Dictionaries
  import opened Recognition
  import opened CoOccurrence

  /** The mention count of every name occurring in `names`. */
  function Frequencies(names: seq<string>): (frequency: map<string, nat>)
  {
    if |names| == 0 then map[]
    else Bump(Frequencies(names[..|names| - 1]), names[|names| - 1])
  }

  /** Exactly the mentioned names have a count, and a name's count is its
      number of mentions. */
  lemma {:induction false} FrequenciesCount(names: seq<string>)
    ensures forall name :: name in Frequencies(names) <==> name in names
    ensures forall name :: name in Frequencies(names) ==> Frequencies(names)[name] == Count(names, name)
  {
    if |names| > 0 {
      var front := names[..|names| - 1];
      FrequenciesCount(front);
      assert names == front + [names[|names| - 1]];
    }
  }

  /** `frequency` counts every name mentioned in the paragraphs, and only
      those. */
  ghost predicate FrequencyOf(ps: seq<seq<string>>, frequency: map<string, nat>)
  {
    frequency == Frequencies(Flatten(ps))
  }

  /** An empty adjacency map for each of the given names. */
  function NoEdges(names: set<string>): (graph: map<string, map<string, nat>>)
    ensures graph.Keys == names
    ensures forall name :: name in graph ==> graph[name] == map[]
  {
    map name | name in names :: map[]
  }

  /** `graph` holds an edge from `a` to `b` exactly when their weight over
      the paragraphs is positive, and then holds that weight. */
  ghost predicate GraphOf(ps: seq<seq<string>>, graph: map<string, map<string, nat>>)
  {
    forall a, b :: a in graph ==>
      && (b in graph[a] <==> Weight(ps, a, b) > 0)
      && (b in graph[a] ==> graph[a][b] == Weight(ps, a, b))
  }

  /** RelationExtractor.extract over a text given as one token list per
      line: the mention count of every recognised name and the weighted
      co-occurrence graph. The count of a name is its number of mentions;
      each name has an adjacency map, which holds exactly the names it
      shares a paragraph with, weighted by the sum over paragraphs of the
      product of the two names' counts there. */
  method Extract(d: Dictionaries, text: seq<seq<string>>)
    returns (frequency: map<string, nat>, relationship: map<string, map<string, nat>>)
    ensures FrequencyOf(Paragraphs(d, text), frequency)
    ensures relationship.Keys == frequency.Keys
    ensures GraphOf(Paragraphs(d, text), relationship)
    ensures NoSelfEdges(relationship) && Symmetric(relationship) && PositiveWeights(relationship)
  {
    var nameInParagraph;
    nameInParagraph, frequency, relationship := CollectMentions(d, text);
    MentionedNamesCounted(nameInParagraph, frequency);
    relationship := AddCoOccurrences(nameInParagraph, relationship);
    GraphShape(nameInParagraph, frequency, relationship);
  }

  /** No name has an edge to itself. */
  ghost predicate NoSelfEdges(graph: map<string, map<string, nat>>)
  {
    forall a :: a in graph ==> a !in graph[a]
  }

  /** Every edge is stored in both directions with the same weight. */
  ghost predicate Symmetric(graph: map<string, map<string, nat>>)
  {
    forall a, b :: a in graph && b in graph[a] ==>
      && b in graph && a in graph[b]
      && graph[b][a] == graph[a][b]
  }

  /** Every stored weight is at least one. */
  ghost predicate PositiveWeights(graph: map<string, map<string, nat>>)
  {
    forall a, b :: a in graph && b in graph[a] ==> graph[a][b] >= 1
  }

  /** Every name of every paragraph has a count. */
  lemma MentionedNamesCounted(ps: seq<seq<string>>, frequency: map<string, nat>)
    requires FrequencyOf(ps, frequency)
    ensures forall i, name :: 0 <= i < |ps| && name in ps[i] ==> name in frequency
  {
    FrequenciesCount(Flatten(ps));
    forall i, name | 0 <= i < |ps| && name in ps[i] ensures name in frequency {
      InFlatten(ps, name);
    }
  }

  /** The shape of an extracted graph: no name is linked to itself, every
      stored weight is at least one, and every edge is stored in both
      directions with the same weight. */
  lemma GraphShape(ps: seq<seq<string>>, frequency: map<string, nat>, graph: map<string, map<string, nat>>)
    requires FrequencyOf(ps, frequency) && graph.Keys == frequency.Keys && GraphOf(ps, graph)
    ensures NoSelfEdges(graph) && Symmetric(graph) && PositiveWeights(graph)
  {
    FrequenciesCount(Flatten(ps));
    forall a | a in graph ensures a !in graph[a] {
      NoSelfWeight(ps, a);
    }
    forall a, b | a in graph && b in graph[a]
      ensures b in graph && a in graph[b] && graph[b][a] == graph[a][b]
    {
      WeightPositive(ps, a, b);
      var i :| 0 <= i < |ps| && a in ps[i] && b in ps[i];
      InFlatten(ps, b);
      WeightSymmetric(ps, a, b);
    }
  }

  /** Two names are linked in an extracted graph exactly when they are
      different and share a paragraph. */
  lemma LinkedIffSharedParagraph(ps: seq<seq<string>>, graph: map<string, map<string, nat>>, a: string, b: string)
    requires GraphOf(ps, graph) && a in graph
    ensures b in graph[a] <==> a != b && exists i :: 0 <= i < |ps| && a in ps[i] && b in ps[i]
  {
    WeightPositive(ps, a, b);
  }

  /** The first pass (the token loop): one list of recognised names per
      line, the mention count of every recognised name, and an empty
      adjacency map for each of them. */
  method CollectMentions(d: Dictionaries, text: seq<seq<string>>)
    returns (nameInParagraph: seq<seq<string>>, frequency: map<string, nat>,
             relationship: map<string, map<string, nat>>)
    ensures nameInParagraph == Paragraphs(d, text)
    ensures FrequencyOf(nameInParagraph, frequency)
    ensures relationship == NoEdges(frequency.Keys)
  {
    relationship := map[];
    frequency := map[];
    nameInParagraph := [];
    for i := 0 to |text|
      invariant nameInParagraph == Paragraphs(d, text[..i])
      invariant FrequencyOf(nameInParagraph, frequency)
      invariant relationship == NoEdges(frequency.Keys)
    {
      ghost var done := nameInParagraph;
      nameInParagraph := nameInParagraph + [[]];
      FlattenAppendEmpty(done);
      nameInParagraph, frequency, relationship := CollectLine(d, text[i], nameInParagraph, frequency, relationship);
      ParagraphsStep(d, text, i);
    }
    assert text[..|text|] == text;
  }

  /** A new empty paragraph mentions nothing. */
  lemma FlattenAppendEmpty(ps: seq<seq<string>>)
    ensures Flatten(ps + [[]]) == Flatten(ps)
  {
    assert (ps + [[]])[..|ps|] == ps;
  }

  /** The paragraphs of one more line of text. */
  lemma ParagraphsStep(d: Dictionaries, text: seq<seq<string>>, i: nat)
    requires i < |text|
    ensures Paragraphs(d, text[..i + 1]) == Paragraphs(d, text[..i]) + [ParagraphNames(d, text[i])]
  {
    assert text[..i + 1] == text[..i] + [text[i]];
  }

  /** The token loop over one line: the line's recognised names are added,
      in order, to the last (so far empty) paragraph, and each one is
      counted. */
  method CollectLine(d: Dictionaries, line: seq<string>, nameInParagraph: seq<seq<string>>,
                     frequency: map<string, nat>, relationship: map<string, map<string, nat>>)
    returns (nameInParagraph': seq<seq<string>>, frequency': map<string, nat>,
             relationship': map<string, map<string, nat>>)
    requires |nameInParagraph| > 0 && nameInParagraph[|nameInParagraph| - 1] == []
    requires FrequencyOf(nameInParagraph, frequency)
    requires relationship == NoEdges(frequency.Keys)
    ensures nameInParagraph' == nameInParagraph[..|nameInParagraph| - 1] + [ParagraphNames(d, line)]
    ensures FrequencyOf(nameInParagraph', frequency')
    ensures relationship' == NoEdges(frequency'.Keys)
  {
    ghost var done := nameInParagraph[..|nameInParagraph| - 1];
    assert nameInParagraph == done + [ParagraphNames(d, line[..0])];
    nameInParagraph', frequency', relationship' := nameInParagraph, frequency, relationship;
    for t := 0 to |line|
      invariant Collected(d, done, line[..t], nameInParagraph', frequency', relationship')
    {
      // Stop-word test, single alias lookup, name test.
      var recognized := Recognize(d, line[t]);
      if recognized.None? {
        SkipToken(d, done, line, t, nameInParagraph', frequency', relationship');
        continue;
      }
      var word := recognized.value;
      RecordToken(d, done, line, t, nameInParagraph', frequency', relationship', word);
      nameInParagraph' := nameInParagraph'[|nameInParagraph'| - 1 := nameInParagraph'[|nameInParagraph'| - 1] + [word]];
      frequency', relationship' := CountMention(frequency', relationship', word);
    }
    assert line[..|line|] == line;
  }

  /** The state of the token loop once the tokens `tokens` of the current
      line have been read. */
  ghost predicate Collected(d: Dictionaries, done: seq<seq<string>>, tokens: seq<string>,
                            nameInParagraph: seq<seq<string>>, frequency: map<string, nat>,
                            relationship: map<string, map<string, nat>>)
  {
    && nameInParagraph == done + [ParagraphNames(d, tokens)]
    && FrequencyOf(nameInParagraph, frequency)
    && relationship == NoEdges(frequency.Keys)
  }

  /** A token that is not recognised leaves the state as it is. */
  lemma SkipToken(d: Dictionaries, done: seq<seq<string>>, line: seq<string>, t: nat,
                  nameInParagraph: seq<seq<string>>, frequency: map<string, nat>,
                  relationship: map<string, map<string, nat>>)
    requires t < |line| && Recognize(d, line[t]) == None
    requires Collected(d, done, line[..t], nameInParagraph, frequency, relationship)
    ensures Collected(d, done, line[..t + 1], nameInParagraph, frequency, relationship)
  {
    ParagraphNamesStep(d, line, t);
  }

  /** A token recognised as `word` appends `word` to the current paragraph,
      creates its count and adjacency map on first sighting and counts it. */
  lemma RecordToken(d: Dictionaries, done: seq<seq<string>>, line: seq<string>, t: nat,
                    nameInParagraph: seq<seq<string>>, frequency: map<string, nat>,
                    relationship: map<string, map<string, nat>>, word: string)
    requires t < |line| && Recognize(d, line[t]) == Some(word)
    requires Collected(d, done, line[..t], nameInParagraph, frequency, relationship)
    ensures
      var last := |nameInParagraph| - 1;
      Collected(d, done, line[..t + 1],
                nameInParagraph[last := nameInParagraph[last] + [word]],
                Bump(frequency, word),
                if word in frequency then relationship else relationship[word := map[]])
  {
    var names := ParagraphNames(d, line[..t]);
    RecordedName(d, done, line, t, nameInParagraph, word);
    FrequencyStep(done, names, word, frequency);
    RecordedEdges(frequency, relationship, word);
  }

  /** One mention of `word`: on first sighting its count starts at zero and
      it gets an empty adjacency map; then its count goes up by one. */
  method CountMention(frequency: map<string, nat>, relationship: map<string, map<string, nat>>, word: string)
    returns (frequency': map<string, nat>, relationship': map<string, map<string, nat>>)
    ensures frequency' == Bump(frequency, word)
    ensures relationship' == if word in frequency then relationship else relationship[word := map[]]
  {
    frequency', relationship' := frequency, relationship;
    if word !in frequency' {
      frequency' := frequency'[word := 0];
      relationship' := relationship'[word := map[]];
    }
    frequency' := frequency'[word := frequency'[word] + 1];
    IncrementIsBump(frequency, word);
  }

  /** The recognised name ends the current paragraph. */
  lemma RecordedName(d: Dictionaries, done: seq<seq<string>>, line: seq<string>, t: nat,
                     nameInParagraph: seq<seq<string>>, word: string)
    requires t < |line| && Recognize(d, line[t]) == Some(word)
    requires nameInParagraph == done + [ParagraphNames(d, line[..t])]
    ensures var last := |nameInParagraph| - 1;
      nameInParagraph[last := nameInParagraph[last] + [word]] == done + [ParagraphNames(d, line[..t + 1])]
  {
    ParagraphNamesStep(d, line, t);
  }

  /** A name seen for the first time gets an empty adjacency map. */
  lemma RecordedEdges(frequency: map<string, nat>, relationship: map<string, map<string, nat>>, word: string)
    requires relationship == NoEdges(frequency.Keys)
    ensures (if word in frequency then relationship else relationship[word := map[]]) == NoEdges(Bump(frequency, word).Keys)
  {
    if word !in frequency {
      NoEdgesAdd(frequency.Keys, word);
    } else {
      assert frequency.Keys + {word} == frequency.Keys;
    }
  }

  /** The frequency map once `word` has been seen: a zero count is created
      on first sighting. */
  function Seen(frequency: map<string, nat>, word: string): (seen: map<string, nat>)
    ensures word in seen && seen.Keys == frequency.Keys + {word}
  {
    if word in frequency then frequency else frequency[word := 0]
  }

  /** Creating the count on first sighting and then incrementing it is one
      more mention. */
  lemma IncrementIsBump(frequency: map<string, nat>, word: string)
    ensures Seen(frequency, word)[word := Seen(frequency, word)[word] + 1] == Bump(frequency, word)
  {
  }

  /** A new name gets an empty adjacency map. */
  lemma NoEdgesAdd(names: set<string>, name: string)
    ensures NoEdges(names + {name}) == NoEdges(names)[name := map[]]
  {
  }

  /** The names of one more token of a line. */
  lemma ParagraphNamesStep(d: Dictionaries, line: seq<string>, t: nat)
    requires t < |line|
    ensures ParagraphNames(d, line[..t + 1]) ==
      match Recognize(d, line[t])
      case None => ParagraphNames(d, line[..t])
      case Some(name) => ParagraphNames(d, line[..t]) + [name]
  {
    assert line[..t + 1][..t] == line[..t];
  }

  /** The frequency map after one more mention of `word`. */
  function Bump(frequency: map<string, nat>, word: string): (bumped: map<string, nat>)
  {
    frequency[word := (if word in frequency then frequency[word] else 0) + 1]
  }

  /** Recording one more mention at the end of the last paragraph keeps the
      frequency map in step with the paragraphs. */
  lemma FrequencyStep(done: seq<seq<string>>, last: seq<string>, word: string, frequency: map<string, nat>)
    requires FrequencyOf(done + [last], frequency)
    ensures FrequencyOf(done + [last + [word]], Bump(frequency, word))
  {
    FlattenExtendLast(done, last, word);
    var before := Flatten(done + [last]);
    assert (before + [word])[..|before|] == before;
  }

  /** Adding a name at the end of the last paragraph adds one mention of
      it to the flattened paragraphs. */
  lemma FlattenExtendLast(done: seq<seq<string>>, last: seq<string>, word: string)
    ensures Flatten(done + [last + [word]]) == Flatten(done + [last]) + [word]
  {
    assert (done + [last + [word]])[..|done|] == done;
    assert (done + [last])[..|done|] == done;
  }
  /** The second pass: for every paragraph and every ordered pair of
      positions in it holding different names, the edge from the first name
      to the second goes up by one (and is created at one). */
  method AddCoOccurrences(nameInParagraph: seq<seq<string>>, relationship: map<string, map<string, nat>>)
    returns (graph: map<string, map<string, nat>>)
    requires forall i, name :: 0 <= i < |nameInParagraph| && name in nameInParagraph[i] ==> name in relationship
    requires forall name :: name in relationship ==> relationship[name] == map[]
    ensures graph.Keys == relationship.Keys
    ensures GraphOf(nameInParagraph, graph)
  {
    graph := relationship;
    for i := 0 to |nameInParagraph|
      invariant graph.Keys == relationship.Keys
      invariant Agrees(graph, nameInParagraph[..i], [], 0, 0)
    {
      graph := AddParagraph(graph, nameInParagraph[..i], nameInParagraph[i]);
      assert nameInParagraph[..i + 1] == nameInParagraph[..i] + [nameInParagraph[i]];
    }
    assert nameInParagraph[..|nameInParagraph|] == nameInParagraph;
    AllParagraphsDone(graph, nameInParagraph);
  }

  /** The two inner loops over one paragraph add its weight to the
      finished paragraphs' weights. */
  method AddParagraph(graph: map<string, map<string, nat>>, done: seq<seq<string>>, paragraph: seq<string>)
    returns (graph': map<string, map<string, nat>>)
    requires forall name :: name in paragraph ==> name in graph
    requires Agrees(graph, done, [], 0, 0)
    ensures graph'.Keys == graph.Keys
    ensures Agrees(graph', done + [paragraph], [], 0, 0)
  {
    graph' := graph;
    ParagraphStart(graph', done, paragraph);
    for j := 0 to |paragraph|
      invariant graph'.Keys == graph.Keys
      invariant Agrees(graph', done, paragraph, j, 0)
    {
      graph' := AddRow(graph', done, paragraph, j);
    }
    ParagraphDone(graph', done, paragraph);
  }

  /** The innermost loop: the name at position `j` is paired with every
      position of the paragraph. */
  method AddRow(graph: map<string, map<string, nat>>, done: seq<seq<string>>, paragraph: seq<string>, j: nat)
    returns (graph': map<string, map<string, nat>>)
    requires j < |paragraph| && paragraph[j] in graph
    requires Agrees(graph, done, paragraph, j, 0)
    ensures graph'.Keys == graph.Keys
    ensures Agrees(graph', done, paragraph, j + 1, 0)
  {
    graph' := graph;
    var name1 := paragraph[j];
    for k := 0 to |paragraph|
      invariant graph'.Keys == graph.Keys
      invariant Agrees(graph', done, paragraph, j, k)
    {
      var name2 := paragraph[k];
      PairStep(graph', done, paragraph, j, k);
      if name1 == name2 {
        continue;
      }
      graph' := Increment(graph', name1, name2);
    }
    RowDone(graph', done, paragraph, j);
  }

  /** One co-occurrence: the edge from `name1` to `name2` is created at one,
      or goes up by one. */
  method Increment(graph: map<string, map<string, nat>>, name1: string, name2: string)
    returns (graph': map<string, map<string, nat>>)
    requires name1 in graph
    ensures graph' == AddEdge(graph, name1, name2)
  {
    if name2 !in graph[name1] {
      graph' := graph[name1 := graph[name1][name2 := 1]];
    } else {
      graph' := graph[name1 := graph[name1][name2 := graph[name1][name2] + 1]];
    }
  }

  /** Once every paragraph is finished the partial weights are the
      weights. */
  lemma AllParagraphsDone(graph: map<string, map<string, nat>>, ps: seq<seq<string>>)
    requires Agrees(graph, ps, [], 0, 0)
    ensures GraphOf(ps, graph)
  {
    forall a, b {
      ParagraphStartAt(ps, [], a, b);
    }
  }

  /** What one occurrence of `a` adds to the edge from `a` to `b` for the
      names `q`: one per occurrence of `b` in `q`, unless `a` is `b`. */
  function Partners(q: seq<string>, a: string, b: string): nat
  {
    if a == b then 0 else Count(q, b)
  }

  /** `m * n`, kept behind a name so that the partial weights stay linear
      for the solver. */
  function Product(m: nat, n: nat): nat
  {
    m * n
  }

  /** The edge weight from `a` to `b` once the paragraphs `done` are
      finished and, in paragraph `p`, the first `j` outer positions are
      finished and the first `k` inner positions of outer position `j`. */
  function Progress(done: seq<seq<string>>, p: seq<string>, j: nat, k: nat, a: string, b: string): nat
    requires j <= |p| && k <= |p|
  {
    Weight(done, a, b) + Product(Count(p[..j], a), Partners(p, a, b))
      + (if j < |p| && p[j] == a then Partners(p[..k], a, b) else 0)
  }

  /** The graph holds exactly the edges of positive partial weight, with
      their weights. */
  ghost predicate Agrees(graph: map<string, map<string, nat>>, done: seq<seq<string>>, p: seq<string>, j: nat, k: nat)
    requires j <= |p| && k <= |p|
  {
    forall a, b :: a in graph ==>
      && (b in graph[a] <==> Progress(done, p, j, k, a, b) > 0)
      && (b in graph[a] ==> graph[a][b] == Progress(done, p, j, k, a, b))
  }

  /** At the start of a paragraph only the finished paragraphs count. */
  lemma ParagraphStart(graph: map<string, map<string, nat>>, done: seq<seq<string>>, p: seq<string>)
    requires Agrees(graph, done, [], 0, 0)
    ensures Agrees(graph, done, p, 0, 0)
  {
    forall a, b {
      ParagraphStartAt(done, p, a, b);
    }
  }

  lemma ParagraphStartAt(done: seq<seq<string>>, p: seq<string>, a: string, b: string)
    ensures Progress(done, p, 0, 0, a, b) == Weight(done, a, b)
    ensures Progress(done, [], 0, 0, a, b) == Weight(done, a, b)
  {
    assert p[..0] == [];
  }

  /** One inner step: the pair at positions (j, k) adds one to its edge
      when its names differ. */
  lemma ProgressStep(done: seq<seq<string>>, p: seq<string>, j: nat, k: nat, a: string, b: string)
    requires j < |p| && k < |p|
    ensures Progress(done, p, j, k + 1, a, b)
      == Progress(done, p, j, k, a, b) + (if a == p[j] && b == p[k] && a != b then 1 else 0)
  {
    assert p[..k + 1] == p[..k] + [p[k]];
  }

  /** `graph` with the edge from `a` to `b` one heavier, created at one. */
  function AddEdge(graph: map<string, map<string, nat>>, a: string, b: string): map<string, map<string, nat>>
    requires a in graph
  {
    var edges := graph[a];
    graph[a := edges[b := if b in edges then edges[b] + 1 else 1]]
  }

  lemma PairStep(graph: map<string, map<string, nat>>, done: seq<seq<string>>, p: seq<string>, j: nat, k: nat)
    requires j < |p| && k < |p| && p[j] in graph
    requires Agrees(graph, done, p, j, k)
    ensures p[j] == p[k] ==> Agrees(graph, done, p, j, k + 1)
    ensures p[j] != p[k] ==> Agrees(AddEdge(graph, p[j], p[k]), done, p, j, k + 1)
  {
    forall a, b {
      ProgressStep(done, p, j, k, a, b);
    }
  }

  /** The end of an inner loop is the start of the next one. */
  lemma RowDone(graph: map<string, map<string, nat>>, done: seq<seq<string>>, p: seq<string>, j: nat)
    requires j < |p|
    requires Agrees(graph, done, p, j, |p|)
    ensures Agrees(graph, done, p, j + 1, 0)
  {
    forall a, b {
      RowDoneAt(done, p, j, a, b);
    }
  }

  lemma RowDoneAt(done: seq<seq<string>>, p: seq<string>, j: nat, a: string, b: string)
    requires j < |p|
    ensures Progress(done, p, j + 1, 0, a, b) == Progress(done, p, j, |p|, a, b)
  {
    var w := Weight(done, a, b);
    var c := Count(p[..j], a);
    var o := Partners(p, a, b);
    assert p[..|p|] == p;
    assert Partners(p[..0], a, b) == 0 by { assert p[..0] == []; }
    assert Progress(done, p, j + 1, 0, a, b) == w + Product(Count(p[..j + 1], a), o);
    assert Progress(done, p, j, |p|, a, b) == w + Product(c, o) + (if p[j] == a then o else 0);
    assert p[..j + 1] == p[..j] + [p[j]];
    if p[j] == a {
      assert Count(p[..j + 1], a) == c + 1;
      MulSucc(c, o);
    } else {
      assert Count(p[..j + 1], a) == c;
    }
  }

  lemma MulSucc(c: nat, o: nat)
    ensures Product(c + 1, o) == Product(c, o) + o
  {
  }

  /** The end of a paragraph adds its weight to the finished ones. */
  lemma ParagraphDone(graph: map<string, map<string, nat>>, done: seq<seq<string>>, p: seq<string>)
    requires Agrees(graph, done, p, |p|, 0)
    ensures Agrees(graph, done + [p], [], 0, 0)
  {
    forall a, b {
      ParagraphDoneAt(done, p, a, b);
    }
  }

  lemma ParagraphDoneAt(done: seq<seq<string>>, p: seq<string>, a: string, b: string)
    ensures Progress(done + [p], [], 0, 0, a, b) == Progress(done, p, |p|, 0, a, b)
  {
    assert (done + [p])[..|done|] == done;
    assert p[..|p|] == p;
  }

  /** A worked example: a stop word is skipped, an alias is counted toward
      its name, a line without names leaves an empty paragraph, and the two
      names share one paragraph with one mention each. */
  lemma Example()
    ensures
      var ps := Paragraphs(Dictionaries(["A", "B"], ["the"], map["X" := "A"]),
                           [["the", "A", "met", "X"], ["B", "left"], [], ["B", "X"]]);
      && ps == [["A", "A"], ["B"], [], ["B", "A"]]
      && Frequencies(Flatten(ps)) == map["A" := 3, "B" := 2]
      && Weight(ps, "A", "B") == 1 && Weight(ps, "A", "A") == 0
  {
    ExampleParagraphs();
    ExampleCounts();
  }

  lemma ExampleParagraphs()
    ensures Paragraphs(Dictionaries(["A", "B"], ["the"], map["X" := "A"]),
                       [["the", "A", "met", "X"], ["B", "left"], [], ["B", "X"]])
            == [["A", "A"], ["B"], [], ["B", "A"]]
  {
    var d := Dictionaries(["A", "B"], ["the"], map["X" := "A"]);
    ExampleFirstLine(d);
    ExampleShortLines(d);
    assert ParagraphNames(d, []) == [];
  }

  lemma ExampleFirstLine(d: Dictionaries)
    requires d == Dictionaries(["A", "B"], ["the"], map["X" := "A"])
    ensures ParagraphNames(d, ["the", "A", "met", "X"]) == ["A", "A"]
  {
    assert Recognize(d, "the") == None;
    assert Recognize(d, "A") == Some("A");
    assert Recognize(d, "met") == None;
    assert Recognize(d, "X") == Some("A");
    var l0 := ["the", "A", "met", "X"];
    assert l0[..1] == ["the"] && l0[..1][..0] == [];
    assert ParagraphNames(d, l0[..1]) == [];
    assert l0[..2] == ["the", "A"] && l0[..2][..1] == l0[..1];
    assert ParagraphNames(d, l0[..2]) == ["A"];
    assert l0[..3] == ["the", "A", "met"] && l0[..3][..2] == l0[..2];
    assert ParagraphNames(d, l0[..3]) == ["A"];
    assert l0[..3] == l0[..|l0| - 1];
  }

  lemma ExampleShortLines(d: Dictionaries)
    requires d == Dictionaries(["A", "B"], ["the"], map["X" := "A"])
    ensures ParagraphNames(d, ["B", "left"]) == ["B"]
    ensures ParagraphNames(d, ["B", "X"]) == ["B", "A"]
  {
    assert Recognize(d, "X") == Some("A");
    assert Recognize(d, "B") == Some("B");
    assert Recognize(d, "left") == None;
    var l1 := ["B", "left"];
    assert l1[..1] == ["B"] && l1[..1][..0] == [];
    assert ParagraphNames(d, l1[..1]) == ["B"];
    var l3 := ["B", "X"];
    assert l3[..1] == ["B"] && l3[..1][..0] == [];
    assert ParagraphNames(d, l3[..1]) == ["B"];
  }

  lemma ExampleCounts()
    ensures
      var ps := [["A", "A"], ["B"], [], ["B", "A"]];
      && Frequencies(Flatten(ps)) == map["A" := 3, "B" := 2]
      && Weight(ps, "A", "B") == 1 && Weight(ps, "A", "A") == 0
  {
    var ps := [["A", "A"], ["B"], [], ["B", "A"]];
    ExampleFlatten(ps);
    ExampleFrequencies(["A", "A", "B", "B", "A"]);
    ExampleWeight(ps);
    NoSelfWeight(ps, "A");
  }

  lemma ExampleFlatten(ps: seq<seq<string>>)
    requires ps == [["A", "A"], ["B"], [], ["B", "A"]]
    ensures Flatten(ps) == ["A", "A", "B", "B", "A"]
  {
    assert ps[..1] == [["A", "A"]] && ps[..1][..0] == [];
    assert Flatten(ps[..1]) == ["A", "A"];
    assert ps[..2] == [["A", "A"], ["B"]] && ps[..2][..1] == ps[..1];
    assert Flatten(ps[..2]) == ["A", "A", "B"];
    assert ps[..3] == [["A", "A"], ["B"], []] && ps[..3][..2] == ps[..2];
    assert Flatten(ps[..3]) == ["A", "A", "B"];
    assert ps[..3] == ps[..|ps| - 1];
  }

  lemma ExampleFrequencies(f: seq<string>)
    requires f == ["A", "A", "B", "B", "A"]
    ensures Frequencies(f) == map["A" := 3, "B" := 2]
  {
    assert f[..1] == ["A"] && f[..1][..0] == [];
    assert Frequencies(f[..1]) == map["A" := 1];
    assert f[..2] == ["A", "A"] && f[..2][..1] == f[..1];
    assert Frequencies(f[..2]) == map["A" := 2];
    assert f[..3] == ["A", "A", "B"] && f[..3][..2] == f[..2];
    assert Frequencies(f[..3]) == map["A" := 2, "B" := 1];
    assert f[..4] == ["A", "A", "B", "B"] && f[..4][..3] == f[..3];
    assert Frequencies(f[..4]) == map["A" := 2, "B" := 2];
    assert f[..4] == f[..|f| - 1];
  }

  lemma ExampleWeight(ps: seq<seq<string>>)
    requires ps == [["A", "A"], ["B"], [], ["B", "A"]]
    ensures Weight(ps, "A", "B") == 1
  {
    assert multiset(["A", "A"])["B"] == 0;
    assert multiset(["B"])["A"] == 0;
    assert multiset(["B", "A"])["A"] == 1 && multiset(["B", "A"])["B"] == 1;
    assert ps[..1] == [["A", "A"]] && ps[..1][..0] == [];
    assert Weight(ps[..1], "A", "B") == 0;
    assert ps[..2] == [["A", "A"], ["B"]] && ps[..2][..1] == ps[..1];
    assert Weight(ps[..2], "A", "B") == 0;
    assert ps[..3] == [["A", "A"], ["B"], []] && ps[..3][..2] == ps[..2];
    assert Weight(ps[..3], "A", "B") == 0;
    assert ps[..3] == ps[..|ps| - 1];
  }
}
