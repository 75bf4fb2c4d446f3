/**
 * The internet tools (tools/internet_tool.py): a web search rendered as a
 * numbered list, and the text of a web page, cleaned up and cut to a maximum
 * length.
 *
 * The search engine is the parameter `search`, which gives the results (or the
 * failure) for a query and a requested number of results. The page download
 * and the HTML-to-text conversion are the parameter `fetch`, which gives the
 * text of the page (scripts and styles removed, elements separated by
 * newlines) or the failure.
 */
module InternetTool {
  import opened Wrappers
  import opened Text

  /** A search result; a missing key is `None`. */
  datatype SearchHit = SearchHit(title: Option<string>, body: Option<string>, href: Option<string>)

  /** The results of a search, or any failure with its text. */
  datatype SearchResponse = SearchOk(results: seq<SearchHit>) | SearchFailed(error: string)

  function NoResults(query: string): string {
    "No se encontraron resultados para la b\U{fa}squeda: '" + query + "'"
  }

  function ResultsHeading(query: string): string {
    "Resultados de b\U{fa}squeda para '" + query + "':"
  }

  function SearchFailure(error: string): string {
    "Error realizando la b\U{fa}squeda en Internet: " + error
  }

  /** The text of a result's entry, with a default for each missing field. */
  function HitText(h: SearchHit): string {
    h.title.GetOr("Sin t\U{ed}tulo") + "\n   " + h.body.GetOr("No hay descripci\U{f3}n disponible") + "\n   "
      + h.href.GetOr("") + "\n"
  }

  function HitTexts(hits: seq<SearchHit>): (r: seq<string>)
    ensures |r| == |hits|
    ensures forall i :: 0 <= i < |hits| ==> r[i] == HitText(hits[i])
  {
    seq(|hits|, i requires 0 <= i < |hits| => HitText(hits[i]))
  }

  /** The list of results, built as `search_internet` builds it. */
  method FormatResults(query: string, hits: seq<SearchHit>) returns (reply: string)
    ensures reply == NumberedList(ResultsHeading(query), HitTexts(hits))
  {
    var lines := [ResultsHeading(query)];
    var i := 0;
    while i < |hits|
      invariant 0 <= i <= |hits|
      invariant |lines| == i + 1 && lines[0] == ResultsHeading(query)
      invariant forall j :: 0 <= j < i ==> lines[j + 1] == Numbered(j + 1, HitText(hits[j]))
    {
      var title := hits[i].title.GetOr("Sin t\U{ed}tulo");
      var body := hits[i].body.GetOr("No hay descripci\U{f3}n disponible");
      var href := hits[i].href.GetOr("");
      lines := lines + [Numbered(i + 1, title + "\n   " + body + "\n   " + href + "\n")];
      i := i + 1;
    }
    assert lines == [ResultsHeading(query)] + NumberedEntries(HitTexts(hits));
    reply := Join("\n", lines);
  }

  /** The default of `num_results`: a search the agent asks for without a count
      is `SearchInternet(query, DefaultNumResults, search)`. */
  const DefaultNumResults: int := 3

  /** `search_internet`: a failure gives its message, no results the message
      naming the query, and otherwise the numbered list of all the results. */
  method SearchInternet(query: string, numResults: int, search: (string, int) -> SearchResponse)
    returns (reply: string)
    ensures match search(query, numResults)
            case SearchFailed(e) => reply == SearchFailure(e)
            case SearchOk(hits) =>
              reply == if hits == [] then NoResults(query) else NumberedList(ResultsHeading(query), HitTexts(hits))
  {
    match search(query, numResults)
    case SearchFailed(e) =>
      reply := SearchFailure(e);
    case SearchOk(hits) =>
      if hits == [] {
        reply := NoResults(query);
      } else {
        reply := FormatResults(query, hits);
      }
  }

  /** The text of a page, or any failure (HTTP status, network, timeout) with its text. */
  datatype PageFetch = PageText(text: string) | PageFailed(error: string)

  function PageFailure(error: string): string {
    "Error obteniendo el contenido de la p\U{e1}gina web: " + error
  }

  const TruncationMarker: string := "... (contenido truncado)"

  /** The phrases of one line: the line stripped and split at double spaces,
      each phrase stripped. */
  function Phrases(line: string): seq<string> {
    StripEach(Split(Strip(line), "  "))
  }

  /** The phrases of the lines, line after line. */
  function Chunks(lines: seq<string>): seq<string>
    decreases |lines|
  {
    if lines == [] then [] else Phrases(lines[0]) + Chunks(lines[1..])
  }

  /** The chunks that are not empty, in order. */
  function NonBlank(chunks: seq<string>): (r: seq<string>)
    ensures forall c | c in r :: c != [] && c in chunks
    decreases |chunks|
  {
    if chunks == [] then []
    else (if chunks[0] != [] then [chunks[0]] else []) + NonBlank(chunks[1..])
  }

  /** The filter drops only blanks: every non-empty chunk is kept. */
  lemma {:induction false} NonBlankKeeps(chunks: seq<string>, c: string)
    requires c in chunks && c != []
    ensures c in NonBlank(chunks)
    decreases |chunks|
  {
    if chunks[0] != c {
      assert c in chunks[1..];
      NonBlankKeeps(chunks[1..], c);
    }
  }

  /** Filtering keeps the order of the chunks: the filter of two runs of
      chunks is the filter of the first followed by the filter of the second. */
  lemma {:induction false} NonBlankAppend(a: seq<string>, b: seq<string>)
    ensures NonBlank(a + b) == NonBlank(a) + NonBlank(b)
    decreases |a|
  {
    if a == [] {
      assert a + b == b;
    } else {
      assert (a + b)[1..] == a[1..] + b;
      NonBlankAppend(a[1..], b);
    }
  }

  /** The cleanup of the page text: its lines, their phrases, the non-empty
      ones joined by newlines. */
  function CleanText(text: string): string {
    Join("\n", NonBlank(Chunks(LinePieces(text))))
  }

  /** A line of the cleaned text: stripped, with no double space and no line break. */
  predicate CleanLine(c: string) {
    Stripped(c) && !Contains(c, "  ") && NoLineBreak(c)
  }

  /** A phrase is stripped, holds no double space, and holds no line break
      when its line holds none. */
  lemma PhraseShape(line: string, p: string)
    requires NoLineBreak(line)
    requires p in Split(Strip(line), "  ")
    ensures CleanLine(Strip(p))
  {
    SplitPieces(Strip(line), "  ", p);
    StripKeepsAbsent(p, "  ");
    forall ch | ch in Strip(p) ensures !IsLineBreak(ch) {
      StripChars(p, ch);
      StripChars(line, ch);
    }
  }

  /** Every phrase of lines without line breaks is stripped, holds no double
      space and no line break. */
  lemma {:induction false} ChunksShape(lines: seq<string>)
    requires forall l | l in lines :: NoLineBreak(l)
    ensures forall c | c in Chunks(lines) :: CleanLine(c)
    decreases |lines|
  {
    if lines != [] {
      var phrases := Phrases(lines[0]);
      var later := Chunks(lines[1..]);
      assert forall c | c in later :: CleanLine(c) by {
        assert forall l | l in lines[1..] :: l in lines;
        ChunksShape(lines[1..]);
      }
      assert forall c | c in phrases :: CleanLine(c) by {
        PhrasesShape(lines[0]);
      }
      assert Chunks(lines) == phrases + later;
    }
  }

  /** The phrases of one line without line breaks. */
  lemma PhrasesShape(line: string)
    requires NoLineBreak(line)
    ensures forall c | c in Phrases(line) :: CleanLine(c)
  {
    var pieces := Split(Strip(line), "  ");
    var phrases := StripEach(pieces);
    forall i | 0 <= i < |phrases| ensures CleanLine(phrases[i]) {
      StripEachAt(pieces, i);
      assert pieces[i] in pieces;
      PhraseShape(line, pieces[i]);
    }
  }

  /** The cleaned text, read back line by line: no line is empty, none has
      leading or trailing whitespace, and none holds a double space. */
  lemma CleanTextLines(text: string)
    requires CleanText(text) != []
    ensures forall l | l in Split(CleanText(text), "\n") :: l != [] && Stripped(l) && !Contains(l, "  ")
  {
    var lines := NonBlank(Chunks(LinePieces(text)));
    assert forall l | l in lines :: l != [] && CleanLine(l) by {
      LinePiecesNoBreak(text);
      ChunksShape(LinePieces(text));
    }
    assert lines != [];
    assert forall l | l in lines :: '\n' !in l by {
      forall l | l in lines ensures '\n' !in l {
        assert CleanLine(l) && IsLineBreak('\n');
      }
    }
    assert Split(CleanText(text), "\n") == lines by {
      SplitJoin('\n', lines);
    }
  }

  /** Nothing but blanks is lost: every non-empty phrase of the page's lines is
      one of the lines of the cleaned text. */
  lemma CleanTextKeeps(text: string, c: string)
    requires c in Chunks(LinePieces(text)) && c != []
    ensures c in Split(CleanText(text), "\n")
  {
    var lines := NonBlank(Chunks(LinePieces(text)));
    NonBlankKeeps(Chunks(LinePieces(text)), c);
    assert forall l | l in lines :: '\n' !in l by {
      LinePiecesNoBreak(text);
      ChunksShape(LinePieces(text));
      forall l | l in lines ensures '\n' !in l {
        assert CleanLine(l) && IsLineBreak('\n');
      }
    }
    assert Split(CleanText(text), "\n") == lines by {
      SplitJoin('\n', lines);
    }
  }

  /** Blank lines and stray whitespace are gone after one cleanup: cleaning the
      cleaned text again changes nothing. */
  lemma CleanTextIdempotent(text: string)
    ensures CleanText(CleanText(text)) == CleanText(text)
  {
    var lines := NonBlank(Chunks(LinePieces(text)));
    if lines == [] {
      assert CleanText(text) == [];
      CleanEmpty();
    } else {
      assert forall l | l in lines :: l != [] && CleanLine(l) by {
        LinePiecesNoBreak(text);
        ChunksShape(LinePieces(text));
      }
      assert LinePieces(CleanText(text)) == lines by {
        LinePiecesJoin(lines);
      }
      assert Chunks(lines) == lines by {
        ChunksOfClean(lines);
      }
      assert NonBlank(lines) == lines by {
        NonBlankOfNonEmpty(lines);
      }
    }
  }

  /** The empty text cleans to the empty text. */
  lemma CleanEmpty()
    ensures CleanText([]) == []
  {
    assert LinePieces([]) == [[]];
    assert Strip([]) == [];
    assert Find([], "  ") == None;
    assert Split([], "  ") == [[]];
    assert StripEach([[]]) == [[]];
    assert Chunks([[]]) == [[]];
    assert NonBlank([[]]) == [];
  }

  /** A clean line is its own single phrase. */
  lemma CleanLinePhrases(l: string)
    requires Stripped(l) && !Contains(l, "  ")
    ensures Phrases(l) == [l]
  {
    StripStripped(l);
    SplitWithoutSeparator(l);
    StripEachOne(l);
  }

  lemma SplitWithoutSeparator(l: string)
    requires !Contains(l, "  ")
    ensures Split(l, "  ") == [l]
  {
    assert Find(l, "  ") == None;
  }

  lemma StripEachOne(l: string)
    requires Stripped(l)
    ensures StripEach([l]) == [l]
  {
    StripStripped(l);
    StripEachAt([l], 0);
  }

  /** Clean lines are their own phrases. */
  lemma ChunksOfClean(lines: seq<string>)
    requires forall l | l in lines :: Stripped(l) && !Contains(l, "  ")
    ensures Chunks(lines) == lines
  {
    OwnPhrasesOf(lines);
    ChunksOfOwnPhrases(lines);
  }

  /** Every line is its own single phrase, read line by line. */
  predicate OwnPhrases(lines: seq<string>)
    decreases |lines|
  {
    lines == [] || (Phrases(lines[0]) == [lines[0]] && OwnPhrases(lines[1..]))
  }

  lemma {:induction false} OwnPhrasesOf(lines: seq<string>)
    requires forall l | l in lines :: Stripped(l) && !Contains(l, "  ")
    ensures OwnPhrases(lines)
    decreases |lines|
  {
    if lines != [] {
      assert lines[0] in lines;
      CleanLinePhrases(lines[0]);
      assert forall x | x in lines[1..] :: x in lines;
      OwnPhrasesOf(lines[1..]);
    }
  }

  lemma {:induction false} ChunksOfOwnPhrases(lines: seq<string>)
    requires OwnPhrases(lines)
    ensures Chunks(lines) == lines
    decreases |lines|
  {
    if lines != [] {
      var l := lines[0];
      ChunksOfOwnPhrases(lines[1..]);
      assert Chunks(lines) == lines by {
        assert lines == [l] + lines[1..];
        ChunksCons(l, lines[1..]);
      }
    }
  }

  /** The phrases of the lines are the lines when the first line is its own
      phrase and the later lines are their own phrases. */
  lemma ChunksCons(l: string, rest: seq<string>)
    requires Phrases(l) == [l]
    requires Chunks(rest) == rest
    ensures Chunks([l] + rest) == [l] + rest
  {
    assert ([l] + rest)[1..] == rest;
  }

  lemma {:induction false} NonBlankOfNonEmpty(chunks: seq<string>)
    requires forall c | c in chunks :: c != []
    ensures NonBlank(chunks) == chunks
    decreases |chunks|
  {
    if chunks != [] {
      assert chunks[0] in chunks;
      forall c | c in chunks[1..] ensures c != [] {
        assert c in chunks;
      }
      NonBlankOfNonEmpty(chunks[1..]);
      assert [chunks[0]] + chunks[1..] == chunks;
    }
  }

  /** Python's `text[:m]`: the first `m` characters, or for a negative `m` all
      but the last `-m`, and never more than the text. */
  function SlicePrefix(text: string, m: int): (r: string)
    ensures |r| == (if m >= 0 then (if m <= |text| then m else |text|)
                    else (if |text| + m >= 0 then |text| + m else 0))
    ensures r == text[..|r|]
  {
    if m >= 0 then (if m <= |text| then text[..m] else text)
    else if |text| + m >= 0 then text[..|text| + m]
    else []
  }

  /** The length cut: a text longer than `maxLength` becomes its first
      `maxLength` characters and the marker; a text that fits is kept. */
  function Truncate(text: string, maxLength: int): (r: string)
    ensures |text| <= maxLength ==> r == text
    ensures |text| > maxLength ==>
              var kept := |r| - |TruncationMarker|;
              && kept == (if maxLength >= 0 then maxLength else if |text| + maxLength >= 0 then |text| + maxLength else 0)
              && r[..kept] == text[..kept]
              && r[kept..] == TruncationMarker
    ensures 0 <= maxLength ==> |r| <= maxLength + |TruncationMarker|
  {
    if |text| > maxLength then SlicePrefix(text, maxLength) + TruncationMarker else text
  }

  /** The default of `max_length`: a page the agent asks for without a length
      is `GetWebpageContent(url, DefaultMaxLength, fetch)`. */
  const DefaultMaxLength: int := 1000

  /** `get_webpage_content`. */
  method GetWebpageContent(url: string, maxLength: int, fetch: string -> PageFetch) returns (reply: string)
    ensures match fetch(url)
            case PageFailed(e) => reply == PageFailure(e)
            case PageText(page) => reply == "Contenido de " + url + ":\n\n" + Truncate(CleanText(page), maxLength)
  {
    match fetch(url)
    case PageFailed(e) =>
      reply := PageFailure(e);
    case PageText(page) =>
      var text := CleanText(page);
      text := Cut(text, maxLength);
      reply := "Contenido de " + url + ":\n\n" + text;
  }

  /** The length cut, applied as `get_webpage_content` applies it. */
  method Cut(text: string, maxLength: int) returns (cut: string)
    ensures cut == Truncate(text, maxLength)
  {
    cut := text;
    if |cut| > maxLength {
      cut := SlicePrefix(cut, maxLength) + TruncationMarker;
    }
  }
}
