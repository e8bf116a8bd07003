/** `ResponseGenerator.generate_response` and the two event handlers of
    slack-knowledge-assistant.py, over the collaborators they call. */
module Assistant {
  import opened Wrappers
  import opened Text
  import opened ContentFilter
  import opened KnowledgeBase

  /** The collaborators a request depends on, and the configured table list.
      Each call returns None when it raises. The answering oracle is given the
      question and the two filtered lists its prompt is built from. */
  datatype World = World(
    allowedTables: seq<string>,
    searchWiki: WikiSearch,
    translate: Translator,
    database: Database,
    answer: (string, seq<Excerpt>, seq<Record>) -> Option<string>)

  /** The labels `generate_response` uses for the two sources. */
  const WikiLabel := "Confluence"
  const DatabaseLabel := "internal database"
  const SourcesHeader := "\n\nSources: "

  /** The source attribution, by which of the two lists is non-empty:
      "\n\nSources: Confluence and internal database", "\n\nSources: Confluence",
      "\n\nSources: internal database", or nothing. */
  function Attribution(fromWiki: bool, fromDatabase: bool): string {
    if fromWiki && fromDatabase then SourcesHeader + WikiLabel + " and " + DatabaseLabel
    else if fromWiki then SourcesHeader + WikiLabel
    else if fromDatabase then SourcesHeader + DatabaseLabel
    else ""
  }

  /** What `generate_response` returns: the stripped answer of the oracle
      followed by the attribution, or an exception from any collaborator whose
      failure is not caught on the way. */
  ghost function Response(question: string, w: World): Result<string> {
    match w.searchWiki(question, SearchLimit)
    case None => Raised
    case Some(results) =>
      var excerpts := KeptExcerpts(results);
      match w.translate(question, w.allowedTables)
      case None => Raised
      case Some(completion) =>
        match DatabaseAnswer(completion, w.database)
        case Raised => Raised
        case Ok(records) =>
          match w.answer(question, excerpts, records)
          case None => Raised
          case Some(text) => Ok(Strip(text) + Attribution(|excerpts| > 0, |records| > 0))
  }

  /** The tail of `generate_response`: strip the oracle's text, collect the
      names of the sources that contributed, and append them joined with
      ` and `. */
  method AttributedReply(generated: string, confluenceResults: seq<Excerpt>, dbResults: seq<Record>)
    returns (text: string)
    ensures text == Strip(generated) + Attribution(|confluenceResults| > 0, |dbResults| > 0)
  {
    text := Strip(generated);
    var sources: seq<string> := [];
    if |confluenceResults| > 0 {
      sources := sources + [WikiLabel];
    }
    if |dbResults| > 0 {
      sources := sources + [DatabaseLabel];
    }
    assert sources == [WikiLabel, DatabaseLabel] ==>
      Join(" and ", sources) == WikiLabel + " and " + Join(" and ", [DatabaseLabel]);
    if sources != [] {
      text := text + SourcesHeader + Join(" and ", sources);
    }
  }

  /** `generate_response`: search the wiki, query the database, ask the
      oracle, and attribute the reply. */
  method GenerateResponse(question: string, w: World) returns (reply: Result<string>)
    ensures reply == Response(question, w)
  {
    var confluenceResults := SearchConfluence(question, w.searchWiki);
    if confluenceResults.Raised? {
      return Raised;
    }
    var dbResults, _ := QueryDatabase(question, w.allowedTables, w.translate, w.database);
    if dbResults.Raised? {
      return Raised;
    }
    var response := w.answer(question, confluenceResults.value, dbResults.value);
    if response.None? {
      return Raised;
    }
    var text := AttributedReply(response.value, confluenceResults.value, dbResults.value);
    return Ok(text);
  }

  /** The fixed reply for any failure while answering. */
  const Apology := "I apologize, but I encountered an error processing your request. Please try again or rephrase your question."

  /** The parts of a Slack event the handlers read; a missing key is None. */
  datatype Event = Event(text: Option<string>, channelType: Option<string>)

  /** What the handler says for the outcome of `generate_response`. */
  function Say(reply: Result<string>): string {
    match reply
    case Ok(text) => text
    case Raised => Apology
  }

  /** `text.split('>', 1)[1].strip()`: the question of a mention is the text
      after the first `>`, stripped; without a `>` the indexing raises. */
  function MentionQuestion(text: string): (q: Option<string>)
    ensures q.None? <==> '>' !in text
    ensures q.Some? ==>
      exists k :: 0 <= k < |text| && text[k] == '>' && '>' !in text[..k] && q.value == Strip(text[k + 1..])
  {
    match After(text, '>')
    case None => None
    case Some(rest) => Some(Strip(rest))
  }

  /** `handle_mention`: every failure, from a missing `text` to a raising
      collaborator, is answered with the apology. */
  method HandleMention(event: Event, w: World) returns (said: string)
    ensures event.text.None? ==> said == Apology
    ensures event.text.Some? ==>
      said == match MentionQuestion(event.text.value)
              case None => Apology
              case Some(q) => Say(Response(q, w))
  {
    if event.text.None? {
      return Apology;
    }
    var query := MentionQuestion(event.text.value);
    if query.None? {
      return Apology;
    }
    var response := GenerateResponse(query.value, w);
    return Say(response);
  }

  /** `handle_message`: only a direct message (`channel_type == 'im'`) is
      answered, with the whole text as the question; other events get no reply. */
  method HandleMessage(event: Event, w: World) returns (said: Option<string>)
    ensures said.Some? <==> event.channelType == Some("im")
    ensures said.Some? ==>
      said.value == match event.text
                    case None => Apology
                    case Some(text) => Say(Response(text, w))
  {
    if event.channelType != Some("im") {
      return None;
    }
    if event.text.None? {
      return Some(Apology);
    }
    var response := GenerateResponse(event.text.value, w);
    return Some(Say(response));
  }

  /** The first `>` ends the mention marker: whatever follows it, stripped, is
      the question, even when the question itself holds a `>`. */
  lemma MentionAfterMarker(marker: string, pre: string, q: string, post: string)
    requires '>' !in marker && AllSpace(pre) && AllSpace(post)
    requires q == [] || (!IsSpace(q[0]) && !IsSpace(q[|q| - 1]))
    ensures MentionQuestion(marker + ['>'] + (pre + q + post)) == Some(q)
  {
    var rest := pre + q + post;
    AfterFirst(marker, '>', rest);
    var text := marker + ['>'] + rest;
    StripPadded(pre, q, post);
    assert MentionQuestion(text) == Some(Strip(rest));
  }

  /** One clean wiki result and no rows: the reply is the oracle's stripped
      text attributed to the wiki alone. */
  lemma WikiOnlyReply(question: string, w: World, r: WikiResult, completion: string, text: string)
    requires w.searchWiki(question, SearchLimit) == Some([r]) && SafeResult(r)
    requires w.translate(question, w.allowedTables) == Some(completion)
    requires DatabaseAnswer(completion, w.database) == Ok([])
    requires w.answer(question, [ToExcerpt(r)], []) == Some(text)
    ensures Response(question, w) == Ok(Strip(text) + Attribution(true, false))
  {
    SingleSafeResultKept(r);
  }

  /** The synthesized answer is not passed through the policy again: when the
      oracle's stripped text is unsafe, so is the attributed reply built from it. */
  lemma FinalAnswerNotFiltered(answer: string, fromWiki: bool, fromDatabase: bool)
    requires !Safe(Strip(answer))
    ensures !Safe(Strip(answer) + Attribution(fromWiki, fromDatabase))
  {
    UnsafeBeforeSuffix(Strip(answer), Attribution(fromWiki, fromDatabase));
  }
}
