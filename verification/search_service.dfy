/** SearchService (server side): keyword search over incidents, remembering
    the ten most recent distinct search terms, newest first. */
module Search {
  import opened Common
  import opened Text
  import opened Seqs
  import opened Incidents

  const MaxHistory := 10

  ghost predicate NoDuplicates(h: seq<string>)
  {
    forall i, j :: 0 <= i < j < |h| ==> h[i] != h[j]
  }

  /** The history the service keeps: bounded and without duplicates. */
  ghost predicate GoodHistory(h: seq<string>)
  {
    |h| <= MaxHistory && NoDuplicates(h)
  }

  /** `addToHistory` on the history as a value: an empty or known term
      changes nothing; a new term goes in front, and the oldest entry is
      dropped once there are more than ten. */
  function Remember(history: seq<string>, term: string): seq<string>
  {
    if term == [] || term in history then history
    else
      var h := [term] + history;
      if |h| > MaxHistory then h[..|h| - 1] else h
  }

  /** The history stays bounded and duplicate-free; a known or empty term
      leaves it exactly as it was (the term is not moved to the front); a
      new term becomes the head, followed by the older entries in order,
      the oldest one dropped only when there were already ten. */
  lemma RememberSpec(history: seq<string>, term: string)
    requires GoodHistory(history)
    ensures GoodHistory(Remember(history, term))
    ensures term == [] || term in history ==> Remember(history, term) == history
    ensures term != [] && term !in history ==>
      var r := Remember(history, term);
      r[0] == term
      && r[1..] == (if |history| < MaxHistory then history else history[..MaxHistory - 1])
  {
    if term != [] && term !in history {
      var r := Remember(history, term);
      forall i, j | 0 <= i < j < |r| ensures r[i] != r[j] {
        if i == 0 {
          assert r[j] == history[j - 1];
        } else {
          assert r[i] == history[i - 1] && r[j] == history[j - 1];
        }
      }
    }
  }

  /** Remembering never invents a term: whatever is in the new history was
      in the old one or is the (non-empty) term just searched for. */
  lemma RememberMembers(history: seq<string>, term: string, t: string)
    ensures t in Remember(history, term) ==> t in history || (t == term && term != [])
  {
  }

  /** A field matches when it is present and its lowercase form contains
      the term. */
  predicate FieldMatches(field: Option<string>, term: string)
  {
    field.Some? && Contains(Lower(field.value), term)
  }

  /** The stream predicate: the term occurs in the location, the
      description or the type. */
  function MatchesTerm(term: string): Incident -> bool
  {
    (i: Incident) => FieldMatches(i.location, term) || FieldMatches(i.description, term) || FieldMatches(i.incidentType, term)
  }

  /** A keyword that is null or blank after Java's `trim` means no search. */
  predicate IsBlank(keyword: Option<string>)
  {
    keyword.None? || JavaTrim(keyword.value) == []
  }

  /** `keyword.toLowerCase().trim()`. */
  function SearchTerm(keyword: string): string
  {
    JavaTrim(Lower(keyword))
  }

  /** A keyword that is not blank yields a non-empty term, so the term
      always enters the history. */
  lemma SearchTermNonEmpty(keyword: string)
    ensures SearchTerm(keyword) == [] <==> IsBlank(Some(keyword))
  {
    LowerKeepsJavaSpaces(keyword);
    LowerKeepsBlank(keyword, JavaSpace);
  }

  /** The search ignores the case of the keyword. */
  lemma SearchTermIgnoresCase(keyword: string)
    ensures SearchTerm(Lower(keyword)) == SearchTerm(keyword)
    ensures IsBlank(Some(Lower(keyword))) <==> IsBlank(Some(keyword))
  {
    LowerIdempotent(keyword);
    SearchTermNonEmpty(keyword);
    SearchTermNonEmpty(Lower(keyword));
  }

  /** The search result for a term: an order-preserving subsequence of the
      input holding exactly the incidents with a matching field. An
      incident whose fields are all null is never found. */
  lemma SearchResultSpec(incidents: seq<Incident>, term: string)
    ensures IsSubsequence(Keep(incidents, MatchesTerm(term)), incidents)
    ensures forall x :: x in Keep(incidents, MatchesTerm(term)) <==>
      x in incidents && (FieldMatches(x.location, term) || FieldMatches(x.description, term)
                         || FieldMatches(x.incidentType, term))
    ensures forall x :: x in Keep(incidents, MatchesTerm(term)) ==>
      x.location.Some? || x.description.Some? || x.incidentType.Some?
    ensures forall x :: multiset(Keep(incidents, MatchesTerm(term)))[x] ==
                       if MatchesTerm(term)(x) then multiset(incidents)[x] else 0
  {
    KeepSpec(incidents, MatchesTerm(term));
  }

  class SearchService {
    var history: seq<string>

    ghost predicate Valid()
      reads this
    {
      GoodHistory(history)
    }

    constructor ()
      ensures history == [] && Valid()
    {
      history := [];
    }

    /** `searchIncidents`: a null or blank keyword returns the input and
        leaves the history alone; otherwise the term is remembered and the
        incidents it matches are returned in input order. */
    method SearchIncidents(incidents: seq<Incident>, keyword: Option<string>) returns (r: seq<Incident>)
      requires Valid()
      modifies this`history
      ensures Valid()
      ensures IsBlank(keyword) ==> r == incidents && history == old(history)
      ensures !IsBlank(keyword) ==>
        var term := SearchTerm(keyword.value);
        term != [] && r == Keep(incidents, MatchesTerm(term)) && history == Remember(old(history), term)
    {
      if keyword.None? || JavaTrim(keyword.value) == [] {
        return incidents;
      }
      var searchTerm := JavaTrim(Lower(keyword.value));
      SearchTermNonEmpty(keyword.value);
      AddToHistory(searchTerm);
      r := Keep(incidents, MatchesTerm(searchTerm));
    }

    /** `addToHistory` (private; its only caller passes a non-null term). */
    method AddToHistory(term: string)
      requires Valid()
      modifies this`history
      ensures Valid()
      ensures history == Remember(old(history), term)
    {
      RememberSpec(history, term);
      if term != [] && term !in history {
        history := [term] + history;
        if |history| > MaxHistory {
          history := history[..|history| - 1];
        }
      }
    }

    /** `getSearchHistory`: a copy, newest first. */
    method GetSearchHistory() returns (h: seq<string>)
      ensures h == history
    {
      h := history;
    }

    method ClearSearchHistory()
      modifies this`history
      ensures history == [] && Valid()
    {
      history := [];
    }
  }
}
