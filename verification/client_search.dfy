/** The browser's SearchService: the server's search with JavaScript's
    `trim`, truthiness tests and `slice` truncation. */
module ClientSearch {
  import opened Common
  import opened Text
  import opened Seqs
  import opened Incidents
  import Search

  /** A keyword that is null, undefined or "" (falsy), or blank after
      JavaScript's `trim`, means no search. */
  predicate IsBlank(keyword: Option<string>)
  {
    keyword.None? || keyword.value == [] || JsTrim(keyword.value) == []
  }

  function SearchTerm(keyword: string): string
  {
    JsTrim(Lower(keyword))
  }

  lemma SearchTermNonEmpty(keyword: string)
    ensures SearchTerm(keyword) == [] <==> IsBlank(Some(keyword))
  {
    LowerKeepsJsSpaces(keyword);
    LowerKeepsBlank(keyword, JsSpace);
    TrimEmpty(keyword, JsSpace);
  }

  /** A field is searched only when truthy (a non-empty string). */
  predicate FieldMatches(field: Option<string>, term: string)
  {
    field.Some? && field.value != [] && Contains(Lower(field.value), term)
  }

  function MatchesTerm(term: string): Incident -> bool
  {
    (i: Incident) => FieldMatches(i.location, term) || FieldMatches(i.description, term) || FieldMatches(i.incidentType, term)
  }

  /** For the non-empty terms the search uses, skipping an empty field
      changes nothing: browser and server keep the same incidents. */
  lemma MatchesAgreeWithServer(incidents: seq<Incident>, term: string)
    requires term != []
    ensures Keep(incidents, MatchesTerm(term)) == Keep(incidents, Search.MatchesTerm(term))
  {
    forall i | 0 <= i < |incidents|
      ensures MatchesTerm(term)(incidents[i]) == Search.MatchesTerm(term)(incidents[i])
    {
    }
    KeepCongruent(incidents, MatchesTerm(term), Search.MatchesTerm(term));
  }

  /** `addToHistory` as a value: a falsy or known term changes nothing; a
      new one is put in front and the list cut to its first ten entries. */
  function Remember(history: seq<string>, term: string): seq<string>
  {
    if term == [] || term in history then history
    else
      var h := [term] + history;
      if |h| > Search.MaxHistory then h[..Search.MaxHistory] else h
  }

  /** Truncating with `slice` keeps the history at ten entries whatever its
      length before, and keeps it free of duplicates. */
  lemma RememberSpec(history: seq<string>, term: string)
    requires Search.NoDuplicates(history)
    ensures |history| <= Search.MaxHistory ==> |Remember(history, term)| <= Search.MaxHistory
    ensures term != [] && term !in history ==> |Remember(history, term)| <= Search.MaxHistory
    ensures Search.NoDuplicates(Remember(history, term))
    ensures term == [] || term in history ==> Remember(history, term) == history
    ensures term != [] && term !in history ==> Remember(history, term)[0] == term
  {
    if term != [] && term !in history {
      var r := Remember(history, term);
      forall i, j | 0 <= i < j < |r| ensures r[i] != r[j] {
        if i == 0 {
          assert r[j] == history[j - 1];
        } else {
          assert r[i] == history[i - 1] && r[j] == history[j - 1];
        }
      }
    }
  }

  /** On a history of at most ten entries, cutting to ten and dropping the
      last entry are the same: browser and server remember alike. */
  lemma RememberAgreesWithServer(history: seq<string>, term: string)
    requires |history| <= Search.MaxHistory
    ensures Remember(history, term) == Search.Remember(history, term)
  {
  }

  /** The two `trim`s disagree on control characters: a keyword made of one
      such character is blank for the server, which returns every incident,
      but a real search term for the browser. */
  lemma ControlCharacterKeyword(c: char)
    requires c < ' ' && !JsSpace(c)
    ensures Search.IsBlank(Some([c]))
    ensures !IsBlank(Some([c])) && SearchTerm([c]) == [c]
  {
    assert !JsSpace(LowerChar(c));
    assert Lower([c]) == [c];
  }

  class SearchService {
    var history: seq<string>

    ghost predicate Valid()
      reads this
    {
      Search.GoodHistory(history)
    }

    constructor ()
      ensures history == [] && Valid()
    {
      history := [];
    }

    /** `searchIncidents`: a falsy or blank keyword returns the input and
        leaves the history alone; otherwise the term is remembered and the
        incidents it matches are returned in input order. */
    method SearchIncidents(incidents: seq<Incident>, keyword: Option<string>) returns (r: seq<Incident>)
      requires Valid()
      modifies this`history
      ensures Valid()
      ensures IsBlank(keyword) ==> r == incidents && history == old(history)
      ensures !IsBlank(keyword) ==>
        var term := SearchTerm(keyword.value);
        term != [] && r == Keep(incidents, MatchesTerm(term)) && history == Remember(old(history), term)
    {
      if keyword.None? || keyword.value == [] || JsTrim(keyword.value) == [] {
        return incidents;
      }
      var searchTerm := JsTrim(Lower(keyword.value));
      SearchTermNonEmpty(keyword.value);
      AddToHistory(searchTerm);
      r := Keep(incidents, MatchesTerm(searchTerm));
    }

    /** `addToHistory`: `unshift`, then `slice(0, 10)` when over ten. */
    method AddToHistory(term: string)
      requires Valid()
      modifies this`history
      ensures Valid()
      ensures history == Remember(old(history), term)
    {
      RememberSpec(history, term);
      if term != [] && term !in history {
        history := [term] + history;
        if |history| > 10 {
          history := history[0..10];
        }
      }
    }
  }
}
