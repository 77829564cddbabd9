/**
 * The article creation utility: makes a fresh article folder, holding an
 * empty resource directory, the metadata file and an empty Markdown file,
 * in the blog directory, refusing to replace an existing folder unless
 * forced.  The blog directory is a map from entry names to entries.
 */
module NewArticle {
  import opened Wrappers
  import opened Content

  /** A file with its text, or a directory with its entries. */
  datatype Entry = File(text: string) | Dir(entries: map<string, Entry>)

  const ResDir: string := "res"
  const MetadataFile: string := "article.json"
  const MarkdownFile: string := "article.md"

  /** Why creation stopped: the folder exists and overwriting was not
      asked for, or what is to be removed is not a directory. */
  datatype CreateError = AlreadyExists(url: string) | NotADirectory(path: string)

  /** Pieces of the `article.json` layout around the three values. */
  const JsonOpen: string := "{\n    \"name\": \""
  const JsonAfterName: string := "\",\n    \"url\": \""
  const JsonAfterUrl: string := "\",\n    \"date\": \""
  const JsonClose: string := "\"\n}"

  /** The text written to `article.json`: the three values substituted into
      the fixed layout as they are, without escaping. */
  function ArticleJson(name: string, url: string, date: string): string {
    JsonOpen + name + JsonAfterName + url + JsonAfterUrl + date + JsonClose
  }

  /** The folder the utility makes. */
  function NewFolder(name: string, url: string, date: string): Entry {
    Dir(map[ResDir := Dir(map[]), MetadataFile := File(ArticleJson(name, url, date)), MarkdownFile := File("")])
  }

  /** The path the utility reports for the folder. */
  function ArticlePath(dir: string, url: string): string {
    dir + url + "/"
  }

  /** The blog directory afterwards and what the utility returned. */
  datatype Created = Created(entries: map<string, Entry>, result: Result<string, CreateError>)

  /** `create_article` as a whole: an existing folder is refused unless
      forced; when forced it is removed (which fails on a plain file) and
      the folder made afresh. */
  function Create(dir: string, entries: map<string, Entry>, name: string, url: string, date: string, force: bool)
    : Created
  {
    if url in entries && !force then Created(entries, Failure(AlreadyExists(url)))
    else if url in entries && entries[url].File? then Created(entries, Failure(NotADirectory(ArticlePath(dir, url))))
    else Created(entries[url := NewFolder(name, url, date)], Success(ArticlePath(dir, url)))
  }

  /** `create_article`, step by step: the existence check, the forced
      removal, then the folder, its `res` directory, `article.json` and
      `article.md`, one after the other.  `verbose` only prints. */
  method CreateArticle(dir: string, entries: map<string, Entry>, name: string, url: string, publishDate: string,
                       force: bool, verbose: bool)
    returns (after: map<string, Entry>, r: Result<string, CreateError>)
    ensures Created(after, r) == Create(dir, entries, name, url, publishDate, force)
  {
    var articlePath := dir + url + "/";
    after := entries;
    if url in after {
      if force {
        if after[url].File? {
          return after, Failure(NotADirectory(articlePath));
        }
        after := after - {url};
      } else {
        return after, Failure(AlreadyExists(url));
      }
    }
    after := after[url := Dir(map[])];
    after := after[url := Dir(after[url].entries[ResDir := Dir(map[])])];
    after := after[url := Dir(after[url].entries[MetadataFile := File(ArticleJson(name, url, publishDate))])];
    after := after[url := Dir(after[url].entries[MarkdownFile := File("")])];
    return after, Success(articlePath);
  }

  /** Without `force`, an existing folder is refused and nothing changes. */
  lemma CreateRefusesExisting(dir: string, entries: map<string, Entry>, name: string, url: string, date: string)
    requires url in entries
    ensures Create(dir, entries, name, url, date, false) == Created(entries, Failure(AlreadyExists(url)))
  {
  }

  /** A successful creation adds exactly the new folder, holding just the
      empty `res` directory, the metadata and an empty `article.md`, leaves
      every other entry alone, whatever the folder held before, and
      reports the folder's path. */
  lemma CreateMakesFolder(dir: string, entries: map<string, Entry>, name: string, url: string, date: string, force: bool)
    ensures var c := Create(dir, entries, name, url, date, force);
      c.result.Success? <==> (url !in entries || (force && entries[url].Dir?))
    ensures var c := Create(dir, entries, name, url, date, force);
      c.result.Success? ==>
        && c.result.value == dir + url + "/"
        && c.entries.Keys == entries.Keys + {url}
        && (forall k :: k in entries && k != url ==> c.entries[k] == entries[k])
        && c.entries[url].Dir?
        && c.entries[url].entries.Keys == {ResDir, MetadataFile, MarkdownFile}
        && c.entries[url].entries[ResDir] == Dir(map[])
        && c.entries[url].entries[MetadataFile] == File(ArticleJson(name, url, date))
        && c.entries[url].entries[MarkdownFile] == File("")
    ensures var c := Create(dir, entries, name, url, date, force);
      c.result.Failure? ==> c.entries == entries
  {
  }

  /** Forcing the same creation twice leaves the directory as forcing it
      once. */
  lemma ForcedCreateIdempotent(dir: string, entries: map<string, Entry>, name: string, url: string, date: string)
    requires Create(dir, entries, name, url, date, true).result.Success?
    ensures var once := Create(dir, entries, name, url, date, true);
      Create(dir, once.entries, name, url, date, true) == once
  {
  }

  // ---------------------------------------------------------------------
  // Reading article.json back
  // ---------------------------------------------------------------------

  /** A string value a JSON reader takes as it is: no quote, no backslash
      (which would start an escape) and no control character. */
  predicate PlainJsonText(s: string) {
    forall i :: 0 <= i < |s| ==> s[i] != '"' && s[i] != '\\' && s[i] >= ' '
  }

  /** The characters of a JSON string up to its closing quote, and the
      text from that quote on; None if an escape or a control character
      comes first, or the quote never comes. */
  function StringBody(s: string): (r: Option<(string, string)>)
    ensures r.Some? ==> PlainJsonText(r.value.0) && r.value.0 + r.value.1 == s && r.value.1 != [] && r.value.1[0] == '"'
    decreases |s|
  {
    if s == [] then None
    else if s[0] == '"' then Some(([], s))
    else if s[0] == '\\' || s[0] < ' ' then None
    else match StringBody(s[1..])
      case None => None
      case Some((body, rest)) =>
        assert [s[0]] + body + rest == s;
        Some(([s[0]] + body, rest))
  }

  /** The value of a string that starts at `s`, and the text after the
      `closing` text that must follow it (which starts with the quote). */
  function Field(s: string, closing: string): (r: Option<(string, string)>)
    ensures r.Some? ==> PlainJsonText(r.value.0) && s == r.value.0 + closing + r.value.1
  {
    match StringBody(s)
    case None => None
    case Some((value, rest)) =>
      if closing <= rest then
        assert rest == closing + rest[|closing|..];
        Some((value, rest[|closing|..]))
      else None
  }

  /** Reads `article.json` in the layout the utility writes: the metadata,
      or None when the text is not that layout with plain string values.
      On such text a JSON reader gives the same three fields. */
  function ParseArticleJson(text: string): (r: Option<Metadata>)
    ensures r.Some? ==>
      && PlainJsonText(r.value.name) && PlainJsonText(r.value.url) && PlainJsonText(r.value.date)
      && text == ArticleJson(r.value.name, r.value.url, r.value.date)
  {
    if !(JsonOpen <= text) then None
    else
      match Field(text[|JsonOpen|..], JsonAfterName)
      case None => None
      case Some((name, r1)) =>
        match Field(r1, JsonAfterUrl)
        case None => None
        case Some((url, r2)) =>
          match Field(r2, JsonClose)
          case None => None
          case Some((date, r3)) =>
            if r3 == [] then
              JoinFields(text, JsonOpen, name, JsonAfterName, r1, url, JsonAfterUrl, r2, date, JsonClose);
              Some(Metadata(name, url, date))
            else None
  }

  /** The text read field by field is the fields joined with the layout
      pieces around them. */
  lemma JoinFields<T>(text: seq<T>, open: seq<T>, a: seq<T>, sepA: seq<T>, restA: seq<T>, b: seq<T>, sepB: seq<T>,
                      restB: seq<T>, c: seq<T>, close: seq<T>)
    requires open <= text
    requires text[|open|..] == a + sepA + restA
    requires restA == b + sepB + restB
    requires restB == c + close + []
    ensures text == open + a + sepA + b + sepB + c + close
  {
    assert text == open + text[|open|..];
  }

  /** A plain value followed by its closing quote is read whole. */
  lemma {:induction false} StringBodyOfPlain(v: string, rest: string)
    requires PlainJsonText(v) && rest != [] && rest[0] == '"'
    ensures StringBody(v + rest) == Some((v, rest))
    decreases |v|
  {
    if v == [] {
      assert v + rest == rest;
    } else {
      assert (v + rest)[0] == v[0];
      assert (v + rest)[1..] == v[1..] + rest;
      StringBodyOfPlain(v[1..], rest);
      assert [v[0]] + v[1..] == v;
    }
  }

  lemma FieldOfPlain(v: string, closing: string, tail: string)
    requires PlainJsonText(v) && closing != [] && closing[0] == '"'
    ensures Field(v + closing + tail, closing) == Some((v, tail))
  {
    assert v + closing + tail == v + (closing + tail);
    StringBodyOfPlain(v, closing + tail);
    assert (closing + tail)[|closing|..] == tail;
  }

  /** The metadata the utility writes reads back as the name, url and date
      it was given exactly when none of them holds a quote, a backslash or a
      control character: the values are written without escaping. */
  lemma ArticleJsonRoundTrip(name: string, url: string, date: string)
    ensures ParseArticleJson(ArticleJson(name, url, date)) == Some(Metadata(name, url, date))
        <==> PlainJsonText(name) && PlainJsonText(url) && PlainJsonText(date)
  {
    if PlainJsonText(name) && PlainJsonText(url) && PlainJsonText(date) {
      var text := ArticleJson(name, url, date);
      assert text == JsonOpen + (name + JsonAfterName + (url + JsonAfterUrl + (date + JsonClose)));
      assert text[|JsonOpen|..] == name + JsonAfterName + (url + JsonAfterUrl + (date + JsonClose + []));
      FieldOfPlain(name, JsonAfterName, url + JsonAfterUrl + (date + JsonClose + []));
      FieldOfPlain(url, JsonAfterUrl, date + JsonClose + []);
      FieldOfPlain(date, JsonClose, []);
    }
  }

  /** A name with a quote in it, such as a quoted title, gives an
      `article.json` whose name does not read back. */
  lemma QuotedNameUnreadable(name: string, url: string, date: string)
    requires '"' in name
    ensures ParseArticleJson(ArticleJson(name, url, date)) != Some(Metadata(name, url, date))
  {
    ArticleJsonRoundTrip(name, url, date);
  }
}
