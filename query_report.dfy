/**
 * `python_scripts/solr_query_immigrant.py`: how the query report pairs
 * Solr's facet lists, builds its filter queries, filters the downloaded
 * documents itself, counts them by month and lays out the CSV report.
 * Solr, pickle and the CSV file are outside the model; what they deliver
 * is given as values.
 */
module QueryReport {
  import opened Wrappers
  import opened Strings

  // -----------------------------------------------------------------------
  // Facet lists: dict(zip(facets[0::2], facets[1::2]))
  // -----------------------------------------------------------------------

  /** `zip(flat[0::2], flat[1::2])`: the pairs of a flat label, value, label, value... list. */
  function Pairs<T>(flat: seq<T>): (ps: seq<(T, T)>)
    ensures |ps| == |flat| / 2
    ensures forall i | 0 <= i < |ps| :: ps[i] == (flat[2 * i], flat[2 * i + 1])
  {
    seq(|flat| / 2, i requires 0 <= i < |flat| / 2 => (flat[2 * i], flat[2 * i + 1]))
  }

  /** `dict(pairs)`: the pairs entered left to right, a later pair replacing an earlier one with the same key. */
  function DictOf<K(!new), V>(ps: seq<(K, V)>): (m: map<K, V>)
    ensures forall k :: k in m <==> exists i | 0 <= i < |ps| :: ps[i].0 == k
    decreases |ps|
  {
    if ps == [] then map[]
    else
      var m := DictOf(ps[..|ps| - 1]);
      assert forall i | 0 <= i < |ps| - 1 :: ps[..|ps| - 1][i] == ps[i];
      m[ps[|ps| - 1].0 := ps[|ps| - 1].1]
  }

  /** A key gets the value of its last pair. */
  lemma {:induction false} DictOfKeepsLast<K(!new), V>(ps: seq<(K, V)>, i: nat)
    requires i < |ps| && forall j | i < j < |ps| :: ps[j].0 != ps[i].0
    ensures ps[i].0 in DictOf(ps) && DictOf(ps)[ps[i].0] == ps[i].1
    decreases |ps|
  {
    if i < |ps| - 1 {
      var prefix := ps[..|ps| - 1];
      assert prefix[i] == ps[i];
      DictOfKeepsLast(prefix, i);
    }
  }

  /** `dict(zip(facets[0::2], facets[1::2]))` on Solr's flat facet list. */
  function FacetCounts<T(!new)>(flat: seq<T>): (m: map<T, T>)
    ensures forall k | k in m :: exists i | 0 <= i < |flat| / 2 :: flat[2 * i] == k
  {
    DictOf(Pairs(flat))
  }

  /**
   * Every label at an even position that has a value after it is a key,
   * with the value following its last such occurrence; nothing else is a
   * key, so a trailing label without a value is dropped.
   */
  lemma FacetCountsMeaning<T(!new)>(flat: seq<T>)
    ensures forall k :: k in FacetCounts(flat) <==> exists i | 0 <= i < |flat| / 2 :: flat[2 * i] == k
    ensures forall i | 0 <= i < |flat| / 2 && (forall j | i < j < |flat| / 2 :: flat[2 * j] != flat[2 * i]) ::
              FacetCounts(flat)[flat[2 * i]] == flat[2 * i + 1]
  {
    var ps := Pairs(flat);
    forall k ensures k in FacetCounts(flat) <==> exists i | 0 <= i < |flat| / 2 :: flat[2 * i] == k {
      if k in FacetCounts(flat) {
        var i :| 0 <= i < |ps| && ps[i].0 == k;
        assert flat[2 * i] == k;
      } else {
        forall i | 0 <= i < |flat| / 2 ensures flat[2 * i] != k {
          assert ps[i].0 == flat[2 * i];
        }
      }
    }
    forall i | 0 <= i < |flat| / 2 && (forall j | i < j < |flat| / 2 :: flat[2 * j] != flat[2 * i])
      ensures FacetCounts(flat)[flat[2 * i]] == flat[2 * i + 1]
    {
      forall j | i < j < |ps| ensures ps[j].0 != ps[i].0 {
        assert ps[j].0 == flat[2 * j];
      }
      DictOfKeepsLast(ps, i);
    }
  }

  // -----------------------------------------------------------------------
  // Filter queries
  // -----------------------------------------------------------------------

  const RangeStart := "2012-01-01T00:00:00Z"
  const StoryRange := "publish_date:[2012-01-01T00:00:00Z TO NOW]"

  /** `query_top25msm_for_range_title_only` and `get_stories_ids_for_query`: stories of the range, then the query's own filters. */
  function TitleFilters(specific: seq<string>): (fq: seq<string>)
    ensures |fq| == |specific| + 2 && fq[2..] == specific
    ensures fq[..2] == ["field_type:st", StoryRange]
  {
    ["field_type:st", StoryRange] + specific
  }

  const JoinPrefix := "{!join from=stories_id to=stories_id}"

  /** One filter of `query_top25msm_for_range_body` turned into a join from sentences to their story, keeping its negation in front. */
  function JoinParam(param: string): (j: string)
    ensures StartsWith(j, "-") <==> StartsWith(param, "-")
    ensures StartsWith(j, JoinPrefix) || StartsWith(j, "-" + JoinPrefix)
  {
    if StartsWith(param, "-") then "-" + JoinPrefix + param[1..]
    else
      var j := JoinPrefix + param;
      assert j[..1] == [JoinPrefix[0]];
      j
  }

  /** Undoes `JoinParam`. */
  function UnJoin(j: string): string {
    if StartsWith(j, "-" + JoinPrefix) then "-" + j[|JoinPrefix| + 1..]
    else if StartsWith(j, JoinPrefix) then j[|JoinPrefix|..]
    else j
  }

  lemma JoinParamRoundTrip(param: string)
    ensures UnJoin(JoinParam(param)) == param
  {
  }

  /** The `map` of `query_top25msm_for_range_body` over the query's filters. */
  function JoinParams(params: seq<string>): (js: seq<string>)
    ensures |js| == |params|
    ensures forall i | 0 <= i < |js| :: js[i] == JoinParam(params[i])
  {
    seq(|params|, i requires 0 <= i < |params| => JoinParam(params[i]))
  }

  /** The join rewriting loses nothing: the filters, in order, are recovered from their join form. */
  lemma JoinParamsRoundTrip(params: seq<string>)
    ensures seq(|params|, i requires 0 <= i < |params| => UnJoin(JoinParams(params)[i])) == params
  {
    forall i | 0 <= i < |params| ensures UnJoin(JoinParams(params)[i]) == params[i] {
      JoinParamRoundTrip(params[i]);
    }
  }

  const SentenceFilter := "sentence:\"illegal immigrant\" OR sentence:\"illegal immigrants\""

  /** `query_top25msm_for_range_body`: sentences of the range about illegal immigrants, joined to stories matching the filters. */
  function BodyFilters(specific: seq<string>): (fq: seq<string>)
    ensures |fq| == |specific| + 3 && fq[3..] == JoinParams(specific)
    ensures fq[..3] == ["field_type:ss", StoryRange, SentenceFilter]
  {
    ["field_type:ss", StoryRange, SentenceFilter] + JoinParams(specific)
  }

  // -----------------------------------------------------------------------
  // str.split
  // -----------------------------------------------------------------------

  /** Python's `s.split(c)`: the pieces between the occurrences of `c`, empty ones included. */
  function Split(s: string, c: char): (parts: seq<string>)
    ensures |parts| >= 1
    ensures forall i | 0 <= i < |parts| :: c !in parts[i]
    decreases |s|
  {
    if s == [] then [""]
    else
      var rest := Split(s[1..], c);
      if s[0] == c then [""] + rest
      else [[s[0]] + rest[0]] + rest[1..]
  }

  /** Python's `c.join(parts)`. */
  function Join(parts: seq<string>, c: char): string
    requires |parts| >= 1
    decreases |parts|
  {
    if |parts| == 1 then parts[0] else parts[0] + [c] + Join(parts[1..], c)
  }

  /** Splitting loses nothing: joining the pieces gives the string back. */
  lemma {:induction false} SplitJoin(s: string, c: char)
    ensures Join(Split(s, c), c) == s
    decreases |s|
  {
    if s != [] {
      var rest := Split(s[1..], c);
      SplitJoin(s[1..], c);
      if s[0] == c {
        assert Split(s, c)[1..] == rest;
      } else {
        var parts := Split(s, c);
        if |rest| == 1 {
          assert parts == [[s[0]] + rest[0]];
        } else {
          assert parts[1..] == rest[1..];
          assert Join(parts, c) == [s[0]] + rest[0] + [c] + Join(rest[1..], c);
        }
      }
    }
  }

  /** A string splits into one piece exactly when the separator does not occur in it. */
  lemma {:induction false} SplitSingle(s: string, c: char)
    ensures |Split(s, c)| == 1 <==> c !in s
    decreases |s|
  {
    if s != [] {
      SplitSingle(s[1..], c);
      assert c in s <==> s[0] == c || c in s[1..];
    }
  }

  // -----------------------------------------------------------------------
  // Documents and the filters applied to them locally
  // -----------------------------------------------------------------------

  /** A downloaded Solr document: its stored fields by name. */
  type Doc = map<string, string>

  /** The Python exceptions these helpers can raise. */
  datatype PyError =
    | KeyError(key: string)    // a document without the field asked for
    | IndexError               // an empty query, a query without ':', an empty clause
    | AssertionError           // a range clause, which the local matcher refuses
    | TypeError                // reduce() of an empty sequence
    | RegexError               // `re.error`: a clause that is not a valid regular expression
    | ZeroDivisionError        // a word count divided by a total of 0

  /** `doc_is_story_in_range`: a story published on or after the start of 2012; `and` stops at the first false. */
  function IsStoryInRange(doc: Doc): (r: Result<bool, PyError>)
    ensures r.Err? <==> "field_type" !in doc || (doc["field_type"] == "st" && "publish_date" !in doc)
    ensures r.Err? ==> r.error == KeyError("field_type") || r.error == KeyError("publish_date")
    ensures r == Ok(true) ==> doc["field_type"] == "st"
  {
    if "field_type" !in doc then Err(KeyError("field_type"))
    else if doc["field_type"] != "st" then Ok(false)
    else if "publish_date" !in doc then Err(KeyError("publish_date"))
    else Ok(!Less(doc["publish_date"], RangeStart))
  }

  /** The range is upward closed: a later publication date of the same story is in range too. */
  lemma StoryInRangeUpwardClosed(doc: Doc, later: string)
    requires IsStoryInRange(doc) == Ok(true)
    requires doc["publish_date"] == later || Less(doc["publish_date"], later)
    ensures IsStoryInRange(doc["publish_date" := later]) == Ok(true)
  {
    if Less(later, RangeStart) {
      if doc["publish_date"] != later {
        LessTransitive(doc["publish_date"], later, RangeStart);
      }
    }
  }

  /** A story is in range exactly when its date does not sort before `2012-01-01T00:00:00Z`. */
  lemma StoryInRangeMeaning(doc: Doc)
    requires "field_type" in doc && "publish_date" in doc
    ensures IsStoryInRange(doc) == Ok(true) <==>
              doc["field_type"] == "st" && (doc["publish_date"] == RangeStart || Less(RangeStart, doc["publish_date"]))
  {
    LessTotal(doc["publish_date"], RangeStart);
    if Less(RangeStart, doc["publish_date"]) {
      LessAsymmetric(RangeStart, doc["publish_date"]);
    }
    if doc["publish_date"] == RangeStart {
      LessIrreflexive(RangeStart);
    }
  }

  /**
   * `re.search("\\b{0}\\b".format(clause), text, re.IGNORECASE)`: `Some`
   * with whether the word occurs, or `None` when the clause, pasted into the
   * pattern unescaped, is not a valid regular expression.
   */
  type WordSearch = (string, string) -> Option<bool>

  /**
   * `doc_matches_solr_query`: a query `field:clause`, negated by a leading
   * `-`, tested against the document's field with `wordMatch(clause, text)`.
   * The field is looked up before the pattern is compiled, so a missing
   * field raises `KeyError` even for an invalid clause.
   * Text after a second ':' is ignored, as `split(":")[1]` does.
   */
  function DocMatches(doc: Doc, query: string, wordMatch: WordSearch): (r: Result<bool, PyError>)
    ensures query == [] ==> r == Err(IndexError)
    ensures r.Err? ==> r.error != TypeError
    ensures r.Err? && r.error.KeyError? ==> r.error.key !in doc
  {
    if query == [] then Err(IndexError)
    else
      var invert := query[0] == '-';
      var q := if invert then query[1..] else query;
      var parts := Split(q, ':');
      if |parts| < 2 then Err(IndexError)
      else
        var field := parts[0];
        var clause := parts[1];
        if clause == [] then Err(IndexError)
        else if clause[0] == '[' then Err(AssertionError)
        else if field !in doc then Err(KeyError(field))
        else match wordMatch(clause, doc[field])
          case None => Err(RegexError)
          case Some(found) => Ok(found != invert)
  }

  function Negated(r: Result<bool, PyError>): Result<bool, PyError> {
    if r.Ok? then Ok(!r.value) else r
  }

  /** A leading '-' inverts the answer of a query, and leaves its errors as they are. */
  lemma DocMatchesNegation(doc: Doc, query: string, wordMatch: WordSearch)
    requires query != [] && query[0] != '-'
    ensures DocMatches(doc, "-" + query, wordMatch) == Negated(DocMatches(doc, query, wordMatch))
  {
  }

  /**
   * A `field:word` query on a document that has the field answers whether
   * the word is in it, or raises `re.error` when the word is not a valid pattern.
   */
  lemma DocMatchesFieldWord(doc: Doc, field: string, word: string, wordMatch: WordSearch)
    requires field != [] && field[0] != '-' && ':' !in field && ':' !in word
    requires word != [] && word[0] != '[' && field in doc
    ensures wordMatch(word, doc[field]).Some? ==> DocMatches(doc, field + ":" + word, wordMatch) == Ok(wordMatch(word, doc[field]).value)
    ensures wordMatch(word, doc[field]).None? ==> DocMatches(doc, field + ":" + word, wordMatch) == Err(RegexError)
  {
    var q := field + ":" + word;
    assert q[0] == field[0];
    SplitConcat(field, word, ':');
  }

  /** Splitting around one separator between two pieces without it gives the two pieces. */
  lemma {:induction false} SplitConcat(a: string, b: string, c: char)
    requires c !in a && c !in b
    ensures Split(a + [c] + b, c) == [a, b]
    decreases |a|
  {
    if a == [] {
      assert ([c] + b)[1..] == b;
      SplitSingle(b, c);
      assert Split(b, c) == [Join(Split(b, c), c)];
      SplitJoin(b, c);
    } else {
      assert (a + [c] + b)[1..] == a[1..] + [c] + b;
      SplitConcat(a[1..], b, c);
      assert [a[0]] + a[1..] == a;
    }
  }

  // -----------------------------------------------------------------------
  // query_top25msm_for_range_body_by_filters
  // -----------------------------------------------------------------------

  /**
   * Python 2's `filter(pred, docs)`: the documents the predicate accepts, in
   * order; the predicate runs left to right and its first exception is
   * raised.
   */
  function Keep(docs: seq<Doc>, pred: Doc -> Result<bool, PyError>): (r: Result<seq<Doc>, PyError>)
    ensures r.Ok? <==> forall i | 0 <= i < |docs| :: pred(docs[i]).Ok?
    ensures r.Ok? ==> forall d :: d in r.value <==> d in docs && pred(d) == Ok(true)
    ensures r.Err? ==> exists i | 0 <= i < |docs| :: pred(docs[i]) == Err(r.error) && forall j | 0 <= j < i :: pred(docs[j]).Ok?
    decreases |docs|
  {
    if docs == [] then Ok([])
    else match pred(docs[0])
      case Err(e) => Err(e)
      case Ok(b) =>
        var rest := Keep(docs[1..], pred);
        assert forall i | 0 <= i < |docs| - 1 :: docs[1..][i] == docs[i + 1];
        if rest.Err? then Err(rest.error)
        else Ok(if b then [docs[0]] + rest.value else rest.value)
  }

  /** The lambda `doc: doc_matches_solr_query(doc, query)`. */
  function Matcher(query: string, wordMatch: WordSearch): Doc -> Result<bool, PyError> {
    doc => DocMatches(doc, query, wordMatch)
  }

  /** `query_docs` after the first `|queries|` passes of the loop. */
  function Filtered(docs: seq<Doc>, queries: seq<string>, wordMatch: WordSearch): (r: Result<seq<Doc>, PyError>)
    ensures r.Ok? ==> forall d | d in r.value :: d in docs && IsStoryInRange(d) == Ok(true)
    ensures r.Err? ==> r.error != TypeError
    decreases |queries|
  {
    if queries == [] then Keep(docs, IsStoryInRange)
    else match Filtered(docs, queries[..|queries| - 1], wordMatch)
      case Err(e) => Err(e)
      case Ok(queryDocs) => Keep(queryDocs, Matcher(queries[|queries| - 1], wordMatch))
  }

  /** A document every filter accepts: an in-range story matching each query. */
  predicate Passes(doc: Doc, queries: seq<string>, wordMatch: WordSearch) {
    IsStoryInRange(doc) == Ok(true) && forall q | q in queries :: DocMatches(doc, q, wordMatch) == Ok(true)
  }

  /** The documents every filter accepts, in their original order. */
  function Select(docs: seq<Doc>, queries: seq<string>, wordMatch: WordSearch): (r: seq<Doc>)
    ensures forall d :: d in r <==> d in docs && Passes(d, queries, wordMatch)
    decreases |docs|
  {
    if docs == [] then []
    else
      var rest := Select(docs[1..], queries, wordMatch);
      assert forall d :: d in docs <==> d == docs[0] || d in docs[1..];
      if Passes(docs[0], queries, wordMatch) then [docs[0]] + rest else rest
  }

  lemma {:induction false} KeepStoriesIsSelect(docs: seq<Doc>, wordMatch: WordSearch)
    requires Keep(docs, IsStoryInRange).Ok?
    ensures Keep(docs, IsStoryInRange).value == Select(docs, [], wordMatch)
    decreases |docs|
  {
    if docs != [] {
      KeepStoriesIsSelect(docs[1..], wordMatch);
    }
  }

  /** One more pass of the loop narrows the selection by its query. */
  lemma {:induction false} KeepNarrowsSelect(docs: seq<Doc>, queries: seq<string>, wordMatch: WordSearch)
    requires queries != []
    requires Keep(Select(docs, queries[..|queries| - 1], wordMatch), Matcher(queries[|queries| - 1], wordMatch)).Ok?
    ensures Keep(Select(docs, queries[..|queries| - 1], wordMatch), Matcher(queries[|queries| - 1], wordMatch)).value
            == Select(docs, queries, wordMatch)
    decreases |docs|
  {
    var last := queries[|queries| - 1];
    var init := queries[..|queries| - 1];
    var pred := Matcher(last, wordMatch);
    if docs != [] {
      var d := docs[0];
      assert forall q :: q in queries <==> q in init || q == last by {
        assert queries == init + [last];
      }
      assert Passes(d, queries, wordMatch) <==> Passes(d, init, wordMatch) && pred(d) == Ok(true);
      var rest := Select(docs[1..], init, wordMatch);
      if Passes(d, init, wordMatch) {
        var sel := [d] + rest;
        assert sel[0] == d && sel[1..] == rest;
        assert Keep(rest, pred).Ok?;
        KeepNarrowsSelect(docs[1..], queries, wordMatch);
      } else {
        KeepNarrowsSelect(docs[1..], queries, wordMatch);
      }
    }
  }

  /** When no filter raises, the loop keeps, in order, exactly the documents that pass every filter. */
  lemma {:induction false} FilteredIsSelect(docs: seq<Doc>, queries: seq<string>, wordMatch: WordSearch)
    requires Filtered(docs, queries, wordMatch).Ok?
    ensures Filtered(docs, queries, wordMatch).value == Select(docs, queries, wordMatch)
    decreases |queries|
  {
    if queries == [] {
      KeepStoriesIsSelect(docs, wordMatch);
    } else {
      FilteredIsSelect(docs, queries[..|queries| - 1], wordMatch);
      KeepNarrowsSelect(docs, queries, wordMatch);
    }
  }

  /** The result holds only in-range stories of the input, each matching every query, and all of them. */
  lemma FilteredMeaning(docs: seq<Doc>, queries: seq<string>, wordMatch: WordSearch)
    requires Filtered(docs, queries, wordMatch).Ok?
    ensures forall d :: d in Filtered(docs, queries, wordMatch).value <==>
              d in docs && IsStoryInRange(d) == Ok(true) && forall q | q in queries :: DocMatches(d, q, wordMatch) == Ok(true)
  {
    FilteredIsSelect(docs, queries, wordMatch);
  }

  lemma {:induction false} SelectSameQueries(docs: seq<Doc>, queries: seq<string>, queries': seq<string>, wordMatch: WordSearch)
    requires forall q :: q in queries <==> q in queries'
    ensures Select(docs, queries, wordMatch) == Select(docs, queries', wordMatch)
    decreases |docs|
  {
    if docs != [] {
      SelectSameQueries(docs[1..], queries, queries', wordMatch);
    }
  }

  /**
   * The filters form a conjunction: applying the same queries in another
   * order (or repeated) gives the same documents in the same order, when
   * neither order raises.
   */
  lemma FilterOrderIrrelevant(docs: seq<Doc>, queries: seq<string>, queries': seq<string>, wordMatch: WordSearch)
    requires forall q :: q in queries <==> q in queries'
    requires Filtered(docs, queries, wordMatch).Ok? && Filtered(docs, queries', wordMatch).Ok?
    ensures Filtered(docs, queries, wordMatch) == Filtered(docs, queries', wordMatch)
  {
    FilteredIsSelect(docs, queries, wordMatch);
    FilteredIsSelect(docs, queries', wordMatch);
    SelectSameQueries(docs, queries, queries', wordMatch);
  }

  /** Once a pass raises, the loop stops with that exception. */
  lemma {:induction false} FilteredStops(docs: seq<Doc>, queries: seq<string>, wordMatch: WordSearch, i: nat)
    requires i <= |queries| && Filtered(docs, queries[..i], wordMatch).Err?
    ensures Filtered(docs, queries, wordMatch) == Filtered(docs, queries[..i], wordMatch)
    decreases |queries| - i
  {
    if i < |queries| {
      assert queries[..i + 1][..i] == queries[..i];
      FilteredStops(docs, queries, wordMatch, i + 1);
    } else {
      assert queries[..i] == queries;
    }
  }

  // -----------------------------------------------------------------------
  // count_by_month and collections.Counter
  // -----------------------------------------------------------------------

  /** `date[:7]`: the year and month of an ISO date; a shorter string is kept whole. */
  function Month(date: string): (m: string)
    ensures |m| == if |date| < 7 then |date| else 7
    ensures StartsWith(date, m)
  {
    if |date| >= 7 then date[..7] else date
  }

  /** `[doc['publish_date'][:7] for doc in docs]`, raising at the first document without a date. */
  function Months(docs: seq<Doc>): (r: Result<seq<string>, PyError>)
    ensures r.Ok? <==> forall i | 0 <= i < |docs| :: "publish_date" in docs[i]
    ensures r.Err? ==> r.error == KeyError("publish_date")
    ensures r.Ok? ==> |r.value| == |docs| && forall i | 0 <= i < |docs| :: r.value[i] == Month(docs[i]["publish_date"])
    decreases |docs|
  {
    if docs == [] then Ok([])
    else if "publish_date" !in docs[0] then Err(KeyError("publish_date"))
    else
      var rest := Months(docs[1..]);
      assert forall i | 0 <= i < |docs| - 1 :: docs[1..][i] == docs[i + 1];
      if rest.Err? then rest else Ok([Month(docs[0]["publish_date"])] + rest.value)
  }

  /** `Counter(xs)`: each distinct element with the number of times it occurs. */
  function Counter(xs: seq<string>): (m: map<string, int>)
    ensures forall k :: k in m <==> k in xs
    ensures forall k | k in m :: m[k] == multiset(xs)[k]
    decreases |xs|
  {
    if xs == [] then map[]
    else
      var init := xs[..|xs| - 1];
      var x := xs[|xs| - 1];
      assert xs == init + [x];
      var m := Counter(init);
      m[x := if x in m then m[x] + 1 else 1]
  }

  /** `count_by_month`. */
  function CountByMonth(docs: seq<Doc>): (r: Result<map<string, int>, PyError>)
    ensures r.Err? ==> r.error == KeyError("publish_date")
    ensures r.Ok? ==> forall m | m in r.value :: r.value[m] >= 1 && |m| <= 7
  {
    match Months(docs)
    case Err(e) => Err(e)
    case Ok(months) => Ok(Counter(months))
  }

  /** The sum of a count map's values, `sum(counts.values())`. */
  ghost function Total(m: map<string, int>): int
    decreases |m|
  {
    if m == map[] then 0
    else
      var k :| k in m;
      m[k] + Total(m - {k})
  }

  lemma {:induction false} TotalRemove(m: map<string, int>, k: string)
    requires k in m
    ensures Total(m) == m[k] + Total(m - {k})
    decreases |m|
  {
    var j :| j in m && Total(m) == m[j] + Total(m - {j});
    if j != k {
      assert (m - {j}).Keys == m.Keys - {j};
      assert (m - {k}).Keys == m.Keys - {k};
      TotalRemove(m - {j}, k);
      TotalRemove(m - {k}, j);
      assert m - {j} - {k} == m - {k} - {j};
    }
  }

  /** The counts of `Counter` add up to the number of elements counted. */
  lemma {:induction false} CounterTotal(xs: seq<string>)
    ensures Total(Counter(xs)) == |xs|
    decreases |xs|
  {
    if xs != [] {
      var init := xs[..|xs| - 1];
      var x := xs[|xs| - 1];
      var m := Counter(init);
      var m' := Counter(xs);
      CounterTotal(init);
      TotalRemove(m', x);
      UpdateThenRemove(m, x, m'[x]);
      if x in m {
        TotalRemove(m, x);
      } else {
        RemoveAbsent(m, x);
      }
    }
  }

  lemma UpdateThenRemove(m: map<string, int>, x: string, v: int)
    ensures m[x := v] - {x} == m - {x}
  {
  }

  lemma RemoveAbsent(m: map<string, int>, x: string)
    requires x !in m
    ensures m - {x} == m
  {
  }

  /**
   * `count_by_month` buckets the documents by the first seven characters
   * of their date: the buckets are the months that occur, each holds the
   * number of documents of that month, and the counts add up to the
   * number of documents.
   */
  lemma CountByMonthMeaning(docs: seq<Doc>)
    requires CountByMonth(docs).Ok?
    ensures var counts := CountByMonth(docs).value;
            && (forall m :: m in counts <==> exists i | 0 <= i < |docs| :: Month(docs[i]["publish_date"]) == m)
            && (forall m | m in counts :: counts[m] == |set i | 0 <= i < |docs| && Month(docs[i]["publish_date"]) == m|)
            && Total(counts) == |docs|
  {
    var months := Months(docs).value;
    var counts := Counter(months);
    assert CountByMonth(docs).value == counts;
    CounterTotal(months);
    forall m | m in counts ensures counts[m] == |set i | 0 <= i < |docs| && Month(docs[i]["publish_date"]) == m| {
      BucketIndices(docs, months, m);
      OccurrencesAreIndices(months, m);
    }
    BucketKeys(docs, months, counts);
  }

  lemma BucketKeys(docs: seq<Doc>, months: seq<string>, counts: map<string, int>)
    requires |months| == |docs| && forall k :: k in counts <==> k in months
    requires forall i | 0 <= i < |docs| :: "publish_date" in docs[i] && months[i] == Month(docs[i]["publish_date"])
    ensures forall m :: m in counts <==> exists i | 0 <= i < |docs| :: Month(docs[i]["publish_date"]) == m
  {
    forall m | m in counts ensures exists i | 0 <= i < |docs| :: Month(docs[i]["publish_date"]) == m {
      var i :| 0 <= i < |months| && months[i] == m;
    }
  }

  lemma BucketIndices(docs: seq<Doc>, months: seq<string>, m: string)
    requires |months| == |docs|
    requires forall i | 0 <= i < |docs| :: "publish_date" in docs[i] && months[i] == Month(docs[i]["publish_date"])
    ensures (set i | 0 <= i < |docs| && Month(docs[i]["publish_date"]) == m) == (set i | 0 <= i < |months| && months[i] == m)
  {
  }

  /** How often an element occurs is the number of positions holding it. */
  lemma {:induction false} OccurrencesAreIndices(xs: seq<string>, x: string)
    ensures multiset(xs)[x] == |set i | 0 <= i < |xs| && xs[i] == x|
    decreases |xs|
  {
    if xs != [] {
      var init := xs[..|xs| - 1];
      OccurrencesAreIndices(init, x);
      assert xs == init + [xs[|xs| - 1]];
      var s := set i | 0 <= i < |xs| && xs[i] == x;
      var s' := set i | 0 <= i < |init| && init[i] == x;
      if xs[|xs| - 1] == x {
        assert s == s' + {|xs| - 1};
      } else {
        assert s == s';
      }
    }
  }

  /** The counts the loop reaches: `Filtered`, then `count_by_month`. */
  function CountsByFilters(docs: seq<Doc>, queries: seq<string>, wordMatch: WordSearch): (r: Result<map<string, int>, PyError>)
    ensures r.Err? ==> Filtered(docs, queries, wordMatch) == Err(r.error)
  {
    match Filtered(docs, queries, wordMatch)
    case Err(e) => Err(e)
    case Ok(queryDocs) =>
      assert forall i | 0 <= i < |queryDocs| :: queryDocs[i] in queryDocs;
      CountByMonth(queryDocs)
  }

  /** Counting never raises once the filters have passed: every kept story has a date. */
  lemma CountsByFiltersMeaning(docs: seq<Doc>, queries: seq<string>, wordMatch: WordSearch)
    requires Filtered(docs, queries, wordMatch).Ok?
    ensures CountsByFilters(docs, queries, wordMatch).Ok?
    ensures Total(CountsByFilters(docs, queries, wordMatch).value) == |Filtered(docs, queries, wordMatch).value|
  {
    var kept := Filtered(docs, queries, wordMatch).value;
    FilteredMeaning(docs, queries, wordMatch);
    assert forall i | 0 <= i < |kept| :: kept[i] in kept;
    CountByMonthMeaning(kept);
  }

  /**
   * `query_top25msm_for_range_body_by_filters`: keeps the in-range stories,
   * narrows them by each query in turn, and counts what is left by month.
   */
  method CountByFilters(docs: seq<Doc>, queries: seq<string>, wordMatch: WordSearch)
    returns (r: Result<map<string, int>, PyError>)
    ensures r == CountsByFilters(docs, queries, wordMatch)
  {
    var stories := Keep(docs, IsStoryInRange);
    if stories.Err? {
      FilteredStops(docs, queries, wordMatch, 0);
      return Err(stories.error);
    }
    var queryDocs := stories.value;
    var i := 0;
    while i < |queries|
      invariant i <= |queries|
      invariant Filtered(docs, queries[..i], wordMatch) == Ok(queryDocs)
    {
      assert queries[..i + 1][..i] == queries[..i];
      var next := Keep(queryDocs, Matcher(queries[i], wordMatch));
      if next.Err? {
        FilteredStops(docs, queries, wordMatch, i + 1);
        return Err(next.error);
      }
      queryDocs := next.value;
      i := i + 1;
    }
    assert queries[..i] == queries;
    r := CountByMonth(queryDocs);
  }

  // -----------------------------------------------------------------------
  // counts_to_db_style
  // -----------------------------------------------------------------------

  /** One row of `counts_to_db_style`, without the float `stem_count`. */
  datatype StemRecord = StemRecord(term: string, rawStemCount: int, totalWords: int, stemCountFactor: int)

  /**
   * `counts_to_db_style`: one record per word, in the dictionary's
   * iteration order (any order here), each carrying its own count and the
   * total of all counts.
   */
  method CountsToDbStyle(counts: map<string, int>) returns (r: Result<seq<StemRecord>, PyError>)
    ensures r.Err? <==> counts != map[] && Total(counts) == 0
    ensures r.Err? ==> r.error == ZeroDivisionError
    ensures r.Ok? ==> |r.value| == |counts|
    ensures r.Ok? ==> forall t :: t in counts <==> exists i | 0 <= i < |r.value| :: r.value[i].term == t
    ensures r.Ok? ==> forall i, j | 0 <= i < j < |r.value| :: r.value[i].term != r.value[j].term
    ensures r.Ok? ==> forall i | 0 <= i < |r.value| ::
              && r.value[i].term in counts
              && r.value[i].rawStemCount == counts[r.value[i].term]
              && r.value[i].totalWords == Total(counts)
              && r.value[i].stemCountFactor == 1
  {
    var totalWords := SumCounts(counts);
    var records := [];
    var todo := counts.Keys;
    while todo != {}
      invariant todo <= counts.Keys
      invariant |records| + |todo| == |counts|
      invariant RecordsOf(records, counts, totalWords, counts.Keys - todo)
      invariant totalWords == 0 ==> todo == counts.Keys
      decreases |todo|
    {
      var word :| word in todo;
      if totalWords == 0 {
        // `float(count)/float(total_words)` of the first word
        assert word in counts;
        return Err(ZeroDivisionError);
      }
      RecordsOfAppend(records, counts, totalWords, todo, word);
      records := records + [StemRecord(word, counts[word], totalWords, 1)];
      todo := todo - {word};
    }
    assert forall t :: t in counts.Keys - todo <==> t in counts;
    assert totalWords == 0 ==> counts == map[];
    return Ok(records);
  }

  /** `records` holds one record for each word of `terms`, each with its own count and `totalWords`. */
  ghost predicate RecordsOf(records: seq<StemRecord>, counts: map<string, int>, totalWords: int, terms: set<string>) {
    && (forall t :: t in terms <==> exists i | 0 <= i < |records| :: records[i].term == t)
    && (forall i, j | 0 <= i < j < |records| :: records[i].term != records[j].term)
    && (forall i | 0 <= i < |records| ::
          records[i].term in counts && records[i] == StemRecord(records[i].term, counts[records[i].term], totalWords, 1))
  }

  lemma RecordsOfAppend(records: seq<StemRecord>, counts: map<string, int>, totalWords: int, todo: set<string>, word: string)
    requires RecordsOf(records, counts, totalWords, counts.Keys - todo) && word in todo && todo <= counts.Keys
    ensures RecordsOf(records + [StemRecord(word, counts[word], totalWords, 1)], counts, totalWords, counts.Keys - (todo - {word}))
  {
    var terms := counts.Keys - todo;
    assert counts.Keys - (todo - {word}) == terms + {word};
    var records' := records + [StemRecord(word, counts[word], totalWords, 1)];
    forall t ensures t in terms + {word} <==> exists i | 0 <= i < |records'| :: records'[i].term == t {
      if t == word {
        assert records'[|records|].term == t;
      } else if t in terms {
        var i :| 0 <= i < |records| && records[i].term == t;
        assert records'[i].term == t;
      }
      if exists i | 0 <= i < |records'| :: records'[i].term == t {
        var i :| 0 <= i < |records'| && records'[i].term == t;
        if i < |records| {
          assert records[i].term == t;
        }
      }
    }
  }

  /** `sum(counts.values())`, taking the values in any order. */
  method SumCounts(counts: map<string, int>) returns (total: int)
    ensures total == Total(counts)
  {
    total := 0;
    var rest := counts;
    while rest != map[]
      invariant total + Total(rest) == Total(counts)
      decreases |rest|
    {
      var k :| k in rest;
      TotalRemove(rest, k);
      total := total + rest[k];
      rest := rest - {k};
    }
  }

  // -----------------------------------------------------------------------
  // get_stories_ids
  // -----------------------------------------------------------------------

  /** `map(lambda str: str.replace("title:", "sentence:"), query)`: the same filters on sentences. */
  function SentenceCopy(query: seq<string>): (copy: seq<string>)
    ensures |copy| == |query|
    ensures forall i | 0 <= i < |query| :: copy[i] == Replace(query[i], "title:", "sentence:")
  {
    seq(|query|, i requires 0 <= i < |query| => Replace(query[i], "title:", "sentence:"))
  }

  /** A query that names no title field is its own sentence copy. */
  lemma SentenceCopyWithoutTitle(query: seq<string>)
    requires forall i | 0 <= i < |query| :: !Contains(query[i], "title:")
    ensures SentenceCopy(query) == query
  {
    forall i | 0 <= i < |query| ensures SentenceCopy(query)[i] == query[i] {
      ReplaceWithoutOccurrence(query[i], "title:", "sentence:");
    }
  }

  /** `fetch_queries` after `extend`: the queries, then a sentence copy of each, in the same order. */
  function FetchQueries(filters: seq<seq<string>>): (fetch: seq<seq<string>>)
    ensures |fetch| == 2 * |filters|
    ensures fetch[..|filters|] == filters
    ensures forall i | 0 <= i < |filters| :: fetch[|filters| + i] == SentenceCopy(filters[i])
  {
    filters + seq(|filters|, i requires 0 <= i < |filters| => SentenceCopy(filters[i]))
  }

  /**
   * `get_stories_ids`: the union of the story ids found by each fetch
   * query; `storiesIdsFor(fq)` stands for Solr's answer to the filter list
   * `fq` of `get_stories_ids_for_query`.
   */
  method GetStoriesIds(filters: seq<seq<string>>, storiesIdsFor: seq<string> -> set<int>) returns (storiesIds: set<int>)
    ensures forall id :: id in storiesIds <==>
              exists i | 0 <= i < 2 * |filters| :: id in storiesIdsFor(TitleFilters(FetchQueries(filters)[i]))
  {
    var fetchQueries := FetchQueries(filters);
    storiesIds := {};
    var i := 0;
    while i < |fetchQueries|
      invariant i <= |fetchQueries|
      invariant forall id :: id in storiesIds <==> exists j | 0 <= j < i :: id in storiesIdsFor(TitleFilters(fetchQueries[j]))
    {
      storiesIds := storiesIds + storiesIdsFor(TitleFilters(fetchQueries[i]));
      i := i + 1;
    }
  }

  // -----------------------------------------------------------------------
  // main: month keys and the CSV header
  // -----------------------------------------------------------------------

  const DaySuffix := "-01T00:00:00Z"

  /** `date.replace('-01T00:00:00Z', '')`: a facet key `2012-03-01T00:00:00Z` becomes `2012-03`. */
  function Truncated(date: string): (t: string)
    ensures |date| < |DaySuffix| ==> t == date
  {
    Replace(date, DaySuffix, "")
  }

  /** `counts[trunc_date] = counts.pop(date)` for each key of `order` in turn; `pop` of a missing key raises. */
  function RekeyAll(counts: map<string, int>, order: seq<string>): (r: Result<map<string, int>, PyError>)
    ensures r.Err? ==> r.error.KeyError? && r.error.key in order
    ensures r.Ok? ==> forall k | k in counts && k !in order :: k in r.value
    decreases |order|
  {
    if order == [] then Ok(counts)
    else match RekeyAll(counts, order[..|order| - 1])
      case Err(e) => Err(e)
      case Ok(m) =>
        var date := order[|order| - 1];
        if date !in m then Err(KeyError(date))
        else Ok((m - {date})[Truncated(date) := m[date]])
  }

  /** `order` is `counts.keys()`: every key once. */
  predicate ListsKeys(order: seq<string>, counts: map<string, int>) {
    && (forall k | k in counts :: k in order)
    && (forall k | k in order :: k in counts)
    && forall i, j | 0 <= i < j < |order| :: order[i] != order[j]
  }

  /** Walking the key list never pops a key that is gone: each is popped once and only by its own step. */
  lemma {:induction false} RekeyKeepsPending(counts: map<string, int>, order: seq<string>, i: nat)
    requires ListsKeys(order, counts) && i <= |order|
    ensures RekeyAll(counts, order[..i]).Ok?
    ensures forall j | i <= j < |order| :: order[j] in RekeyAll(counts, order[..i]).value
  {
    if i > 0 {
      RekeyKeepsPending(counts, order, i - 1);
      assert order[..i][..i - 1] == order[..i - 1];
      assert order[..i][i - 1] == order[i - 1];
    } else {
      forall j | 0 <= j < |order| ensures order[j] in counts {
        assert order[j] in order;
      }
    }
  }

  lemma RekeyNeverRaises(counts: map<string, int>, order: seq<string>)
    requires ListsKeys(order, counts)
    ensures RekeyAll(counts, order).Ok?
  {
    RekeyKeepsPending(counts, order, |order|);
    assert order[..|order|] == order;
  }

  /**
   * The keys `count_by_month` produces are seven characters at most, too
   * short to hold the day suffix, so the rewriting leaves such counts as
   * they are.
   */
  lemma {:induction false} RekeyKeepsMonthKeys(counts: map<string, int>, order: seq<string>)
    requires forall k | k in order :: k in counts && |k| < |DaySuffix|
    ensures RekeyAll(counts, order) == Ok(counts)
    decreases |order|
  {
    if order != [] {
      var init := order[..|order| - 1];
      var date := order[|order| - 1];
      assert forall k | k in init :: k in order;
      RekeyKeepsMonthKeys(counts, init);
      assert date in order;
      ReplaceWithoutOccurrence(date, DaySuffix, "");
      assert (counts - {date})[date := counts[date]] == counts;
    }
  }

  /** In `main` the counts come from `count_by_month`, so the key rewriting changes nothing. */
  lemma RekeyAfterCountByFilters(docs: seq<Doc>, queries: seq<string>, wordMatch: WordSearch, order: seq<string>)
    requires CountsByFilters(docs, queries, wordMatch).Ok?
    requires ListsKeys(order, CountsByFilters(docs, queries, wordMatch).value)
    ensures RekeyAll(CountsByFilters(docs, queries, wordMatch).value, order) == Ok(CountsByFilters(docs, queries, wordMatch).value)
  {
    var kept := Filtered(docs, queries, wordMatch).value;
    CountByMonthMeaning(kept);
    var counts := CountByMonth(kept).value;
    forall k | k in order ensures k in counts && |k| < |DaySuffix| {
      var i :| 0 <= i < |kept| && Month(kept[i]["publish_date"]) == k;
    }
    RekeyKeepsMonthKeys(counts, order);
  }

  /** Replacing leaves alone a prefix at none of whose positions the pattern starts. */
  lemma {:induction false} ReplaceAfterPrefix(a: string, b: string, pat: string, rep: string)
    requires pat != []
    requires forall p | 0 <= p < |a| :: !StartsWith((a + b)[p..], pat)
    ensures Replace(a + b, pat, rep) == a + Replace(b, pat, rep)
    decreases |a|
  {
    if a != [] {
      var s := a + b;
      assert s[0..] == s;
      assert s[1..] == a[1..] + b;
      forall p | 0 <= p < |a| - 1 ensures !StartsWith((a[1..] + b)[p..], pat) {
        assert (a[1..] + b)[p..] == s[p + 1..];
      }
      ReplaceAfterPrefix(a[1..], b, pat, rep);
      if |s| >= |pat| {
        assert s[..|pat|] != pat;
        assert Replace(s, pat, rep) == [s[0]] + Replace(s[1..], pat, rep);
        assert [a[0]] + (a[1..] + Replace(b, pat, rep)) == a + Replace(b, pat, rep);
      } else {
        assert Replace(b, pat, rep) == b;
      }
    } else {
      assert a + b == b;
    }
  }

  /** A Solr range-facet key `YYYY-MM-01T00:00:00Z` is cut down to its month `YYYY-MM`. */
  lemma TruncatedFacetKey(month: string)
    requires |month| == 7 && month[4] == '-'
    requires forall i | 0 <= i < 7 && i != 4 :: IsDigit(month[i])
    ensures Truncated(month + DaySuffix) == month
  {
    var s := month + DaySuffix;
    forall p | 0 <= p < 7 ensures !StartsWith(s[p..], DaySuffix) {
      if p == 4 {
        assert s[p..][3] == s[7] == '-';
      } else {
        assert s[p..][0] == month[p];
      }
    }
    ReplaceAfterPrefix(month, DaySuffix, DaySuffix, "");
    assert DaySuffix[..|DaySuffix|] == DaySuffix;
  }

  /** The loop in `main` over a month-count map. */
  method RekeyCounts(counts: map<string, int>, order: seq<string>) returns (rekeyed: map<string, int>)
    requires ListsKeys(order, counts)
    ensures RekeyAll(counts, order) == Ok(rekeyed)
  {
    rekeyed := counts;
    var i := 0;
    while i < |order|
      invariant i <= |order|
      invariant RekeyAll(counts, order[..i]) == Ok(rekeyed)
    {
      RekeyKeepsPending(counts, order, i);
      assert order[..i + 1][..i] == order[..i];
      var date := order[i];
      var count := rekeyed[date];
      rekeyed := rekeyed - {date};
      rekeyed := rekeyed[Truncated(date) := count];
      i := i + 1;
    }
    assert order[..i] == order;
  }

  /** Every key of every row: `reduce(lambda x, y: x.union(y), ...)` over the rows' key sets. */
  function AllKeys(results: map<string, map<string, int>>): set<string> {
    set q, k | q in results && k in results[q] :: k
  }

  /**
   * `row_titles`: `'query'` followed by the sorted union of the rows'
   * keys; `reduce` of no rows raises.
   */
  function Header(results: map<string, map<string, int>>): (r: Result<seq<string>, PyError>)
    ensures r.Err? <==> results == map[]
    ensures r.Err? ==> r.error == TypeError
    ensures r.Ok? ==> |r.value| >= 1 && r.value[0] == "query" && StrictlySorted(r.value[1..])
    ensures r.Ok? ==> forall k :: k in r.value[1..] <==> exists q | q in results :: k in results[q]
  {
    if results == map[] then Err(TypeError)
    else
      var titles := SortedSet(AllKeys(results));
      assert (["query"] + titles)[1..] == titles;
      Ok(["query"] + titles)
  }

  /**
   * Every field of every CSV row, its counts and the `query` field added
   * to it, is a column of the header, so `DictWriter` accepts the rows;
   * no column repeats while no count is keyed `query`.
   */
  lemma HeaderCoversRows(results: map<string, map<string, int>>)
    requires results != map[]
    ensures forall q, k | q in results && (k in results[q] || k == "query") :: k in Header(results).value
    ensures (forall q | q in results :: "query" !in results[q]) ==>
              forall i, j | 0 <= i < j < |Header(results).value| :: Header(results).value[i] != Header(results).value[j]
  {
    var h := Header(results).value;
    forall q, k | q in results && k in results[q] ensures k in h {
      assert k in AllKeys(results);
      assert k in h[1..];
    }
    if forall q | q in results :: "query" !in results[q] {
      forall i, j | 0 <= i < j < |h| ensures h[i] != h[j] {
        if i == 0 {
          assert h[j] in h[1..];
        } else {
          assert h[1..][i - 1] == h[i] && h[1..][j - 1] == h[j];
          LessIrreflexive(h[i]);
        }
      }
    }
  }
}
