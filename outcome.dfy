/**
 * What `fact_check` answers, as a function of what the two providers said:
 * the encyclopedia page looked up by the statement, and the search results
 * for it. The answer is decided first (`Decide`, one of three outcomes) and
 * then written out as the exact text the server sends back (`Render`).
 * The three shapes of text begin differently, so they cannot be confused;
 * `Parse` reads a text back into its outcome.
 */
module Outcome {
  import opened Text

  datatype Option<T> = None | Some(value: T)

  /** How many characters of the page summary are quoted. */
  const ExcerptLimit: nat := 200
  /** How many results the search provider is asked for. */
  const SearchLimit: nat := 3

  /** The answer texts, character for character (U+2705, U+1F50E, U+26A0 U+FE0F). */
  const VerifiedPrefix: string := "\U{2705} Verified Fact (Wikipedia): "
  const Ellipsis: string := "..."
  const LinkPrefix: string := "\U{1F50E} Fact check this link: "
  const NoInformation: string := "\U{26A0}\U{FE0F} No relevant information found online."
  const NewLine: char := '\n'

  /** The page object the encyclopedia client returns for a title. */
  datatype Page = Page(present: bool, summary: string)

  /** The three outcomes of one fact check. */
  datatype Verdict =
    | Confirmed(excerpt: string)     // the page exists; the quoted part of its summary
    | Candidates(refs: seq<string>)  // no page; the search results, in provider order
    | Unverified                     // no page and no search results

  function Min(a: nat, b: nat): nat { if a <= b then a else b }

  /** `summary[:200]`: the summary cut to the excerpt budget. */
  function Excerpt(summary: string): (e: string)
    ensures e <= summary
    ensures |e| == Min(ExcerptLimit, |summary|)
  {
    summary[..Min(ExcerptLimit, |summary|)]
  }

  /** Which branch of `fact_check` fires for the given provider answers. */
  function Decide(page: Page, results: seq<string>): (v: Verdict)
    ensures v.Confirmed? <==> page.present
    ensures v.Confirmed? ==> v.excerpt == Excerpt(page.summary)
    ensures v.Candidates? <==> !page.present && |results| > 0
    ensures v.Candidates? ==> v.refs == results
    ensures v.Unverified? <==> !page.present && |results| == 0
  {
    if page.present then Confirmed(Excerpt(page.summary))
    else if |results| > 0 then Candidates(results)
    else Unverified
  }

  /** One line per search result, built by appending as the source's loop does. */
  function LinkLines(refs: seq<string>): (lines: seq<string>)
    ensures |lines| == |refs|
    ensures forall i :: 0 <= i < |refs| ==> lines[i] == LinkPrefix + refs[i]
  {
    if |refs| == 0 then []
    else LinkLines(refs[..|refs| - 1]) + [LinkPrefix + refs[|refs| - 1]]
  }

  /**
   * The text sent back for an outcome. Each outcome is told apart by how the
   * text begins: the verified prefix, the link prefix, or the whole
   * no-information message (an empty list of candidates gives the empty text).
   */
  function Render(v: Verdict): (s: string)
    ensures VerifiedPrefix <= s <==> v.Confirmed?
    ensures LinkPrefix <= s <==> v.Candidates? && |v.refs| > 0
    ensures s == NoInformation <==> v.Unverified?
  {
    match v
    case Confirmed(excerpt) =>
      var s := VerifiedPrefix + excerpt + Ellipsis;
      assert s[0] == VerifiedPrefix[0];
      s
    case Candidates(refs) =>
      var lines := LinkLines(refs);
      var s := Join(lines, [NewLine]);
      assert |refs| > 0 ==> lines[0] == LinkPrefix + refs[0] && s[..|lines[0]|] == lines[0];
      assert |refs| > 0 ==> s[0] == LinkPrefix[0] != NoInformation[0];
      s
    case Unverified =>
      assert NoInformation[0] != VerifiedPrefix[0] && NoInformation[0] != LinkPrefix[0];
      NoInformation
  }

  /**
   * What `fact_check` returns once the providers have answered. For every
   * pair of answers, exactly one of the three shapes comes out: the verified
   * prefix on a page hit, link lines on a miss with results, and the
   * no-information message on a miss without.
   */
  function Answer(page: Page, results: seq<string>): (s: string)
    ensures VerifiedPrefix <= s <==> page.present
    ensures LinkPrefix <= s <==> !page.present && |results| > 0
    ensures s == NoInformation <==> !page.present && |results| == 0
  {
    Render(Decide(page, results))
  }

  /** Strips the link prefix off one line of a candidates answer. */
  function LinkTarget(line: string): string
  {
    if LinkPrefix <= line then line[|LinkPrefix|..] else line
  }

  /** Every line carries the link prefix. */
  predicate AllLinkLines(lines: seq<string>)
  {
    forall i :: 0 <= i < |lines| ==> LinkPrefix <= lines[i]
  }

  /** The results named by a list of link lines. */
  function LinkTargets(lines: seq<string>): seq<string>
  {
    seq(|lines|, i requires 0 <= i < |lines| => LinkTarget(lines[i]))
  }

  /** Reads an answer text back into the outcome it reports, if it is one. */
  function Parse(s: string): Option<Verdict>
  {
    if s == NoInformation then Some(Unverified)
    else if VerifiedPrefix <= s && |VerifiedPrefix| + |Ellipsis| <= |s|
         && s[|s| - |Ellipsis|..] == Ellipsis
    then Some(Confirmed(s[|VerifiedPrefix|..|s| - |Ellipsis|]))
    else
      var lines := Split(s, NewLine);
      if AllLinkLines(lines) then Some(Candidates(LinkTargets(lines)))
      else None
  }

  /** Search results with no line break in them, each giving exactly one answer line. */
  predicate SingleLine(refs: seq<string>)
  {
    forall i :: 0 <= i < |refs| ==> NewLine !in refs[i]
  }

  /** The outcomes `Decide` can produce, with results that are single lines. */
  predicate WellFormed(v: Verdict)
  {
    v.Candidates? ==> |v.refs| >= 1 && SingleLine(v.refs)
  }

  // ---------------------------------------------------------------------------
  // The page exists

  /**
   * A page hit answers with the prefix, the first 200 characters of the
   * summary and "...", whatever the search provider would have said.
   */
  lemma PageHitAnswer(page: Page, results: seq<string>, other: seq<string>)
    requires page.present
    ensures Answer(page, results) == VerifiedPrefix + Excerpt(page.summary) + Ellipsis
    ensures Answer(page, results) == Answer(page, other)
  {
  }

  /**
   * A summary within the budget is quoted whole, and "..." is appended anyway:
   * the marker does not mean that anything was cut.
   */
  lemma ShortSummaryQuotedWhole(page: Page, results: seq<string>)
    requires page.present && |page.summary| <= ExcerptLimit
    ensures Answer(page, results) == VerifiedPrefix + page.summary + Ellipsis
  {
  }

  /** A longer summary is cut to exactly 200 characters, so the answer has a fixed length. */
  lemma LongSummaryCut(page: Page, results: seq<string>)
    requires page.present && |page.summary| > ExcerptLimit
    ensures Answer(page, results) == VerifiedPrefix + page.summary[..ExcerptLimit] + Ellipsis
    ensures |Answer(page, results)| == |VerifiedPrefix| + ExcerptLimit + |Ellipsis|
  {
  }

  // ---------------------------------------------------------------------------
  // No page, search found something

  /**
   * Without a page and with results r1..rk, the answer consists of exactly k
   * lines, the i-th being the link prefix followed by ri, in provider order,
   * and it does not end in a line break.
   */
  lemma {:induction false} SearchHitAnswer(page: Page, results: seq<string>)
    requires !page.present && |results| >= 1 && SingleLine(results)
    ensures Split(Answer(page, results), NewLine) == LinkLines(results)
    ensures var s := Answer(page, results); |s| > 0 && s[|s| - 1] != NewLine
  {
    var lines := LinkLines(results);
    var s := Answer(page, results);
    assert s == Join(lines, [NewLine]);
    SplitJoin(lines, NewLine);
    var last := lines[|lines| - 1];
    JoinEndsWithLast(lines, [NewLine]);
    assert last == LinkPrefix + results[|results| - 1];
    assert last[|last| - 1] in last;
    assert s[|s| - 1] == last[|last| - 1];
  }

  // ---------------------------------------------------------------------------
  // No page, no search results

  /** Without a page and without results the answer is the fixed message. */
  lemma NothingFoundAnswer(page: Page)
    requires !page.present
    ensures Answer(page, []) == NoInformation
  {
  }

  /**
   * The limit of 3 is only passed to the provider: the answer has at most 3
   * lines exactly when the provider returned at most 3 results (or none).
   */
  lemma {:induction false} LineCountFollowsProvider(page: Page, results: seq<string>)
    requires !page.present && SingleLine(results)
    ensures |Split(Answer(page, results), NewLine)| == if |results| == 0 then 1 else |results|
    ensures |Split(Answer(page, results), NewLine)| <= SearchLimit <==> |results| <= SearchLimit
  {
    if |results| == 0 {
      assert NewLine !in NoInformation by {
        forall j | 0 <= j < |NoInformation| ensures NoInformation[j] != NewLine {}
      }
      SplitWithoutSeparator(NoInformation, NewLine);
    } else {
      SearchHitAnswer(page, results);
    }
  }

  // ---------------------------------------------------------------------------
  // The three shapes cannot be confused

  /** Every well-formed outcome can be read back from its text. */
  lemma {:induction false} ParseRender(v: Verdict)
    requires WellFormed(v)
    ensures Parse(Render(v)) == Some(v)
  {
    match v
    case Unverified =>
    case Confirmed(excerpt) => ParseConfirmed(excerpt);
    case Candidates(refs) => ParseCandidates(refs);
  }

  /** A confirmed answer reads back as the excerpt it quotes, whatever that excerpt holds. */
  lemma ParseConfirmed(excerpt: string)
    ensures Parse(Render(Confirmed(excerpt))) == Some(Confirmed(excerpt))
  {
  }

  /** A candidates answer reads back as its results, in order. */
  lemma {:induction false} ParseCandidates(refs: seq<string>)
    requires |refs| >= 1 && SingleLine(refs)
    ensures Parse(Render(Candidates(refs))) == Some(Candidates(refs))
  {
    var lines := LinkLines(refs);
    SplitJoin(lines, NewLine);
    LinkTargetsOfLinkLines(refs);
  }

  /** Stripping the link prefix off each link line gives back the results. */
  lemma LinkTargetsOfLinkLines(refs: seq<string>)
    ensures AllLinkLines(LinkLines(refs))
    ensures LinkTargets(LinkLines(refs)) == refs
  {
  }

  /**
   * The answer text reports exactly the outcome `Decide` chose, whenever the
   * search results that end up in it are single lines.
   */
  lemma AnswerReadsBack(page: Page, results: seq<string>)
    requires !page.present ==> SingleLine(results)
    ensures Parse(Answer(page, results)) == Some(Decide(page, results))
  {
    ParseRender(Decide(page, results));
  }

  /** Scenario with no page and two search results: two lines, in that order. */
  lemma TwoLinksScenario()
    ensures Answer(Page(false, ""), ["http://a", "http://b"])
      == LinkPrefix + "http://a" + "\n" + LinkPrefix + "http://b"
  {
    var lines := LinkLines(["http://a", "http://b"]);
    assert lines == [LinkPrefix + "http://a", LinkPrefix + "http://b"];
    assert Join(lines, [NewLine]) == lines[0] + [NewLine] + lines[1];
  }
}
