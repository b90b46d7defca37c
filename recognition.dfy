/**
 * Recognition and normalisation of character names, token by token and
 * line by line (the token loop of RelationExtractor.extract). The
 * segmenter is not modelled: a line of text is the sequence of words it
 * produced for that line; part-of-speech tags are never read.
 */
module Recognition {
  import opened Results
  import opened Dictionaries

  /** What one token contributes to its paragraph: nothing if it is a stop
      word; otherwise the token after a single alias lookup (applied only
      when the alias maps to a non-empty string), provided that is a known
      name. */
  function Recognize(d: Dictionaries, token: string): (r: Option<string>)
    ensures token in d.stopWords ==> r == None
    ensures r.Some? ==> r.value in d.names
    ensures r.Some? ==> r.value == token || (token in d.aliases && d.aliases[token] == r.value)
    ensures token !in d.stopWords && token !in d.aliases && token in d.names ==> r == Some(token)
    ensures token !in d.stopWords && token in d.aliases && d.aliases[token] != "" && d.aliases[token] in d.names
            ==> r == Some(d.aliases[token])
    ensures token !in d.stopWords && token in d.aliases && d.aliases[token] != "" && d.aliases[token] !in d.names
            ==> r == None
    ensures token !in d.stopWords && token in d.aliases && d.aliases[token] == ""
            ==> r == (if token in d.names then Some(token) else None)
  {
    if token in d.stopWords then None
    else
      var word := if token in d.aliases && d.aliases[token] != "" then d.aliases[token] else token;
      if word in d.names then Some(word) else None
  }

  /** The names recognised in one line, in token order, repeats kept. */
  function ParagraphNames(d: Dictionaries, tokens: seq<string>): (names: seq<string>)
    ensures |names| <= |tokens|
    ensures forall k :: 0 <= k < |names| ==> names[k] in d.names
  {
    if |tokens| == 0 then []
    else
      var front := ParagraphNames(d, tokens[..|tokens| - 1]);
      match Recognize(d, tokens[|tokens| - 1])
      case None => front
      case Some(name) => front + [name]
  }

  /** One list of recognised names per line of text, empty lists included. */
  function Paragraphs(d: Dictionaries, text: seq<seq<string>>): (ps: seq<seq<string>>)
    ensures |ps| == |text|
    ensures forall i :: 0 <= i < |text| ==> ps[i] == ParagraphNames(d, text[i])
  {
    seq(|text|, i requires 0 <= i < |text| => ParagraphNames(d, text[i]))
  }

  /** All paragraphs' names, one after the other. */
  function Flatten(ps: seq<seq<string>>): (all: seq<string>)
  {
    if |ps| == 0 then [] else Flatten(ps[..|ps| - 1]) + ps[|ps| - 1]
  }

  /** How often `name` occurs in `names`. */
  function Count(names: seq<string>, name: string): (n: nat)
  {
    multiset(names)[name]
  }

  /** A name occurs in the flattened paragraphs exactly when it occurs in
      one of the paragraphs. */
  lemma {:induction false} InFlatten(ps: seq<seq<string>>, name: string)
    ensures name in Flatten(ps) <==> exists i :: 0 <= i < |ps| && name in ps[i]
  {
    if |ps| > 0 {
      var n := |ps| - 1;
      InFlatten(ps[..n], name);
      assert forall i :: 0 <= i < n ==> ps[..n][i] == ps[i];
      if name in ps[n] {
        assert name in Flatten(ps);
      }
    }
  }

  /** The total number of mentions is the sum of the per-paragraph ones. */
  lemma {:induction false} CountFlattenAppend(ps: seq<seq<string>>, p: seq<string>, name: string)
    ensures Count(Flatten(ps + [p]), name) == Count(Flatten(ps), name) + Count(p, name)
  {
    assert (ps + [p])[..|ps|] == ps;
  }

  /** Every mention counted in a line is a token of that line that is not a
      stop word: a name that is a stop word is counted only through aliases
      that are not stop words. */
  lemma {:induction false} StopWordNameNotCounted(d: Dictionaries, tokens: seq<string>, name: string)
    requires name in d.stopWords
    requires forall a :: a in d.aliases && a !in d.stopWords ==> d.aliases[a] != name
    ensures name !in ParagraphNames(d, tokens)
  {
    if |tokens| > 0 {
      StopWordNameNotCounted(d, tokens[..|tokens| - 1], name);
    }
  }

  /** Removing every occurrence of a stop word from a line does not change
      the names recognised in it. */
  lemma {:induction false} StopWordsIgnored(d: Dictionaries, tokens: seq<string>, stop: string)
    requires stop in d.stopWords
    ensures ParagraphNames(d, Without(tokens, stop)) == ParagraphNames(d, tokens)
  {
    if |tokens| > 0 {
      var n := |tokens| - 1;
      StopWordsIgnored(d, tokens[..n], stop);
      if tokens[n] != stop {
        var rest := Without(tokens, stop);
        assert rest[..|rest| - 1] == Without(tokens[..n], stop);
      }
    }
  }

  /** `tokens` with every occurrence of `w` removed. */
  function Without(tokens: seq<string>, w: string): (r: seq<string>)
    ensures w !in r
  {
    if |tokens| == 0 then []
    else if tokens[|tokens| - 1] == w then Without(tokens[..|tokens| - 1], w)
    else Without(tokens[..|tokens| - 1], w) + [tokens[|tokens| - 1]]
  }

  /** Alias resolution is one lookup: an alias whose target is itself an
      alias with a different target still resolves to its own target. */
  lemma AliasNotChained(d: Dictionaries, alias: string)
    requires alias !in d.stopWords && alias in d.aliases
    requires d.aliases[alias] != "" && d.aliases[alias] in d.names
    requires d.aliases[alias] in d.aliases && d.aliases[d.aliases[alias]] != d.aliases[alias]
    ensures Recognize(d, alias) == Some(d.aliases[alias])
  {
  }

  /** The stop-word test looks at the token as written: an alias whose
      target is a stop word still counts toward that target. */
  lemma StopWordTestBeforeAlias(d: Dictionaries, alias: string)
    requires alias !in d.stopWords && alias in d.aliases
    requires d.aliases[alias] != "" && d.aliases[alias] in d.names && d.aliases[alias] in d.stopWords
    ensures Recognize(d, alias) == Some(d.aliases[alias])
  {
  }

  /** An alias shadows the token: a known name that is also an alias key
      with a non-empty target that is not a known name is dropped. */
  lemma AliasShadowsName(d: Dictionaries, token: string)
    requires token in d.names && token in d.aliases
    requires d.aliases[token] != "" && d.aliases[token] !in d.names
    ensures Recognize(d, token) == None
  {
  }

  /** An alias with an empty target is ignored: the token is looked up as
      written. */
  lemma EmptyAliasIgnored(d: Dictionaries, token: string)
    requires token !in d.stopWords && token in d.aliases && d.aliases[token] == ""
    ensures Recognize(d, token) == (if token in d.names then Some(token) else None)
  {
  }
}
