/**
 * `fact_check(statement)` as it runs: one look-up of the statement as an
 * encyclopedia page title, and only on a miss one web search for it, whose
 * results are turned into link lines by a loop that appends to a list.
 *
 * The two providers are outside services; `Providers` stands for them. What
 * they answer is fixed by two functions (`wiki`, `engine`), and two ghost logs
 * record every call made to them, so that the number and the arguments of
 * those calls can be stated.
 */
module FactChecker {
  import opened Text
  import opened Outcome

  /** One request to the search provider: the query and the number of results asked for. */
  datatype Query = Query(text: string, numResults: nat)

  class Providers {
    /** The page the encyclopedia returns for each title. */
    const wiki: string -> Page
    /** The results the search provider yields for each query and requested count. */
    const engine: (string, nat) -> seq<string>

    /** Every title looked up so far, in call order. */
    ghost var lookups: seq<string>
    /** Every search issued so far, in call order. */
    ghost var queries: seq<Query>

    constructor (wiki: string -> Page, engine: (string, nat) -> seq<string>)
      ensures this.wiki == wiki && this.engine == engine
      ensures lookups == [] && queries == []
    {
      this.wiki := wiki;
      this.engine := engine;
      lookups := [];
      queries := [];
    }

    /** `wiki_wiki.page(title)`: the page for the title, logged as one look-up. */
    method FetchPage(title: string) returns (page: Page)
      modifies this
      ensures page == wiki(title)
      ensures lookups == old(lookups) + [title]
      ensures queries == old(queries)
    {
      page := wiki(title);
      lookups := lookups + [title];
    }

    /** `search(query, num_results=n)`: the provider's results, logged as one search. */
    method Search(query: string, numResults: nat) returns (results: seq<string>)
      modifies this
      ensures results == engine(query, numResults)
      ensures lookups == old(lookups)
      ensures queries == old(queries) + [Query(query, numResults)]
    {
      results := engine(query, numResults);
      queries := queries + [Query(query, numResults)];
    }
  }

  /**
   * The fact check. Its answer is `Answer` of what the providers said for the
   * statement, so every property proved of `Answer` holds of it. The page is
   * looked up exactly once, with the statement as given; the search runs at
   * most once, with the statement as given and a request for 3 results, and
   * not at all when the page exists.
   */
  method FactCheck(p: Providers, statement: string) returns (answer: string)
    modifies p
    ensures answer == Answer(p.wiki(statement), p.engine(statement, SearchLimit))
    ensures p.lookups == old(p.lookups) + [statement]
    ensures p.queries == old(p.queries) +
      (if p.wiki(statement).present then [] else [Query(statement, SearchLimit)])
  {
    var page := p.FetchPage(statement);

    if page.present {
      return VerifiedPrefix + Excerpt(page.summary) + Ellipsis;
    }

    var searchResults: seq<string> := [];
    var results := p.Search(statement, SearchLimit);
    var i := 0;
    while i < |results|
      invariant 0 <= i <= |results|
      invariant searchResults == LinkLines(results[..i])
    {
      assert results[..i + 1][..i] == results[..i];
      searchResults := searchResults + [LinkPrefix + results[i]];
      i := i + 1;
    }
    assert results[..i] == results;

    if |searchResults| > 0 {
      return Join(searchResults, [NewLine]);
    }

    return NoInformation;
  }

  /**
   * Checking the same statement twice against unchanged providers gives the
   * same answer both times; each call makes its own look-up and, on a miss,
   * its own search.
   */
  method CheckTwice(p: Providers, statement: string) returns (first: string, second: string)
    modifies p
    ensures first == second == Answer(p.wiki(statement), p.engine(statement, SearchLimit))
    ensures p.lookups == old(p.lookups) + [statement, statement]
    ensures p.queries == old(p.queries) +
      (if p.wiki(statement).present then []
       else [Query(statement, SearchLimit), Query(statement, SearchLimit)])
  {
    first := FactCheck(p, statement);
    second := FactCheck(p, statement);
  }
}
