/**
 * The three controlled vocabularies the extractor is built from, and the
 * way each is read from the lines of its file (RelationExtractor.__init__).
 * Opening and decoding the files is not modelled: each loader receives the
 * file's lines as `readlines()` returns them, line terminators included.
 */
module Dictionaries {
  import opened Text
  import opened Results

  /** The loaded vocabularies. Names and stop words are Python lists, so
      membership is list membership and duplicates are harmless. */
  datatype Dictionaries = Dictionaries(
    names: seq<string>,
    stopWords: seq<string>,
    aliases: map<string, string>)

  /** A name-dictionary line `name [weight [tag]]`: the name is the first
      space-separated field of the stripped line. The result is the longest
      prefix of the stripped line without a space. */
  function NameEntry(line: string): (name: string)
    ensures ' ' !in name
    ensures |name| <= |Strip(line)| && name == Strip(line)[..|name|]
    ensures |name| < |Strip(line)| ==> Strip(line)[|name|] == ' '
  {
    SplitFields(Strip(line), ' ');
    Split(Strip(line), ' ')[0]
  }

  /** A stop-word line is the stripped line. */
  function StopWordEntry(line: string): (word: string)
    ensures NoOuterSpace(word)
  {
    StripSpec(line);
    Strip(line)
  }

  /** An alias line `alias,canonical[,ignored...]`: the first two
      comma-separated fields, each stripped. A line without a comma has no
      second field, and reading it fails. */
  function AliasEntry(line: string): (entry: Option<(string, string)>)
    ensures entry.Some? <==> ',' in line
  {
    var fields := Split(line, ',');
    if |fields| < 2 then None
    else Some((Strip(fields[0]), Strip(fields[1])))
  }

  /** The alias entry of a line made of two or more comma-free fields is
      its first two fields, stripped: fields beyond the second are ignored. */
  lemma AliasEntryOfFields(fields: seq<string>)
    requires |fields| >= 2
    requires forall i :: 0 <= i < |fields| ==> ',' !in fields[i]
    ensures AliasEntry(Join(fields, ',')) == Some((Strip(fields[0]), Strip(fields[1])))
  {
    SplitJoin(fields, ',');
  }

  function ParseNames(lines: seq<string>): (names: seq<string>)
    ensures |names| == |lines|
    ensures forall i :: 0 <= i < |lines| ==> names[i] == NameEntry(lines[i])
  {
    seq(|lines|, i requires 0 <= i < |lines| => NameEntry(lines[i]))
  }

  function ParseStopWords(lines: seq<string>): (words: seq<string>)
    ensures |words| == |lines|
    ensures forall i :: 0 <= i < |lines| ==> words[i] == StopWordEntry(lines[i])
  {
    seq(|lines|, i requires 0 <= i < |lines| => StopWordEntry(lines[i]))
  }

  /** The parsed alias lines collected into a list of pairs, or the
      position of the first line that has no second field. */
  function AliasPairs(entries: seq<Option<(string, string)>>): (r: Result<seq<(string, string)>>)
    ensures r.Ok? <==> forall i :: 0 <= i < |entries| ==> entries[i].Some?
    ensures r.Ok? ==> |r.value| == |entries|
    ensures r.Ok? ==> forall i :: 0 <= i < |entries| ==> entries[i] == Some(r.value[i])
    ensures r.Err? ==> r.error.line < |entries| && entries[r.error.line].None?
    ensures r.Err? ==> forall i :: 0 <= i < r.error.line ==> entries[i].Some?
  {
    if |entries| == 0 then Ok([])
    else
      var n := |entries| - 1;
      var front := entries[..n];
      assert forall i :: 0 <= i < n ==> front[i] == entries[i];
      match AliasPairs(front)
      case Err(e) => Err(e)
      case Ok(pairs) =>
        match entries[n]
        case None => Err(AliasFieldMissing(n))
        case Some(pair) =>
          var all := pairs + [pair];
          assert forall i :: 0 <= i < n ==> all[i] == pairs[i];
          Ok(all)
  }

  /** `dict(pairs)`: the pairs entered one after the other, so that a later
      pair overrides an earlier one with the same key. */
  function PairsToMap(pairs: seq<(string, string)>): (m: map<string, string>)
    ensures |pairs| > 0 ==> pairs[|pairs| - 1].0 in m && m[pairs[|pairs| - 1].0] == pairs[|pairs| - 1].1
  {
    if |pairs| == 0 then map[]
    else PairsToMap(pairs[..|pairs| - 1])[pairs[|pairs| - 1].0 := pairs[|pairs| - 1].1]
  }

  /** The keys of `dict(pairs)` are the keys of the pairs. */
  lemma {:induction false} PairsToMapKeys(pairs: seq<(string, string)>, k: string)
    ensures k in PairsToMap(pairs) <==> exists i :: 0 <= i < |pairs| && pairs[i].0 == k
  {
    if |pairs| > 0 {
      var n := |pairs| - 1;
      var front := pairs[..n];
      PairsToMapKeys(front, k);
      if k in PairsToMap(front) {
        var i :| 0 <= i < n && front[i].0 == k;
        assert pairs[i].0 == k;
      }
      if exists i :: 0 <= i < |pairs| && pairs[i].0 == k {
        var i :| 0 <= i < |pairs| && pairs[i].0 == k;
        if i < n {
          assert front[i].0 == k;
        }
      }
    }
  }

  /** When a key occurs more than once, the value of its last occurrence
      wins. */
  lemma {:induction false} PairsToMapLastWins(pairs: seq<(string, string)>, i: nat)
    requires i < |pairs| && LastKeyOccurrence(pairs, i)
    ensures pairs[i].0 in PairsToMap(pairs) && PairsToMap(pairs)[pairs[i].0] == pairs[i].1
  {
    var n := |pairs| - 1;
    if i < n {
      var front := pairs[..n];
      assert front[i] == pairs[i];
      assert LastKeyOccurrence(front, i) by {
        forall j | i < j < n ensures front[j].0 != front[i].0 {
          assert front[j] == pairs[j];
        }
      }
      PairsToMapLastWins(front, i);
      assert pairs[n].0 != pairs[i].0;
    }
  }

  /** No later pair has the same key as pair `i`. */
  predicate LastKeyOccurrence(pairs: seq<(string, string)>, i: nat)
    requires i < |pairs|
  {
    forall j :: i < j < |pairs| ==> pairs[j].0 != pairs[i].0
  }

  /** Each alias line parsed on its own. */
  function AliasEntries(lines: seq<string>): (entries: seq<Option<(string, string)>>)
    ensures |entries| == |lines|
    ensures forall i :: 0 <= i < |lines| ==> entries[i] == AliasEntry(lines[i])
  {
    seq(|lines|, i requires 0 <= i < |lines| => AliasEntry(lines[i]))
  }

  /** The alias map: fails exactly when some line has no comma, naming the
      first such line; otherwise `dict` of the pairs of all lines. */
  function ParseAliases(lines: seq<string>): (r: Result<map<string, string>>)
    ensures r.Ok? <==> forall i :: 0 <= i < |lines| ==> ',' in lines[i]
    ensures r.Err? ==> r.error.line < |lines| && ',' !in lines[r.error.line]
    ensures r.Err? ==> forall i :: 0 <= i < r.error.line ==> ',' in lines[i]
  {
    var entries := AliasEntries(lines);
    match AliasPairs(entries)
    case Err(e) =>
      assert entries[e.line].None?;
      Err(e)
    case Ok(pairs) => Ok(PairsToMap(pairs))
  }

  /** Duplicate alias keys: the later line wins. If line `i` holds the last
      entry for its key, the loaded alias map sends that key to line `i`'s
      value. */
  lemma LaterAliasLineWins(lines: seq<string>, i: nat)
    requires ParseAliases(lines).Ok? && i < |lines|
    requires forall j :: i < j < |lines| ==> AliasEntry(lines[j]).value.0 != AliasEntry(lines[i]).value.0
    ensures AliasEntry(lines[i]).value.0 in ParseAliases(lines).value
    ensures ParseAliases(lines).value[AliasEntry(lines[i]).value.0] == AliasEntry(lines[i]).value.1
  {
    var entries := AliasEntries(lines);
    var pairs := AliasPairs(entries).value;
    PairsToMapLastWins(pairs, i);
  }

  /** The keys of the loaded alias map are the aliases of the lines. */
  lemma AliasKeys(lines: seq<string>, alias: string)
    requires ParseAliases(lines).Ok?
    ensures alias in ParseAliases(lines).value <==>
      exists i :: 0 <= i < |lines| && AliasEntry(lines[i]).value.0 == alias
  {
    var entries := AliasEntries(lines);
    var pairs := AliasPairs(entries).value;
    assert ParseAliases(lines).value == PairsToMap(pairs);
    PairsToMapKeys(pairs, alias);
    assert forall i :: 0 <= i < |lines| ==> AliasEntry(lines[i]).value == pairs[i];
  }

  /** Building the extractor: names, stop words and aliases are read in
      that order; only the alias file can fail, and it fails exactly when
      one of its lines has no comma. */
  function Load(stopLines: seq<string>, nameLines: seq<string>, aliasLines: seq<string>): (r: Result<Dictionaries>)
    ensures r.Ok? <==> forall i :: 0 <= i < |aliasLines| ==> ',' in aliasLines[i]
    ensures r.Ok? ==> |r.value.names| == |nameLines|
    ensures r.Ok? ==> forall i :: 0 <= i < |nameLines| ==> r.value.names[i] == NameEntry(nameLines[i])
    ensures r.Ok? ==> |r.value.stopWords| == |stopLines|
    ensures r.Ok? ==> forall i :: 0 <= i < |stopLines| ==> r.value.stopWords[i] == StopWordEntry(stopLines[i])
    ensures r.Ok? ==> r.value.aliases == ParseAliases(aliasLines).value
    ensures r.Err? ==> ParseAliases(aliasLines).Err? && r.error == ParseAliases(aliasLines).error
  {
    var names := ParseNames(nameLines);
    var stopWords := ParseStopWords(stopLines);
    match ParseAliases(aliasLines)
    case Err(e) => Err(e)
    case Ok(aliases) => Ok(Dictionaries(names, stopWords, aliases))
  }
}
