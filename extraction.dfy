/**
 * The scraper's own rules: the article-link filter, the title and content of an article, the
 * file name derived from its title, and the save that never overwrites an existing file.
 *
 * Browser scrolling, HTML fetching and parsing are outside the model: a page arrives as its
 * title metadata and the text of its article element, and a link as its absolute form with the
 * path component already parsed out. The article directory is a map from path to file text.
 */
module Extraction {
  import opened Wrappers
  import opened Text

  /** Suffix that the site appends to every page title. */
  const TitleSuffix := " - The Economic Times"

  /** Separator between an article's title and its body. */
  const TitleSeparator := "\n\n"

  /** Extension of every saved article file. */
  const ArticleExtension := ".md"

  /** Characters replaced by '_' in a file name. */
  const Forbidden: set<char> := {'/', '\\', ':', ' '}

  // ----- Link filter --------------------------------------------------------------------------

  /** A link after `urljoin`, with the path that `urlparse` gives for it. */
  datatype Link = Link(href: string, path: string)

  /** Raised by `split('/')[-2]` when the path has no '/'. */
  datatype LinkError = IndexError

  /** A link the filter keeps: under `url`, with "articleshow" as its path's second-to-last segment. */
  predicate IsArticleLink(url: string, link: Link) {
    var segments := Split(link.path, '/');
    StartsWith(link.href, url) && |segments| >= 2 && segments[|segments| - 2] == "articleshow"
  }

  /** One step of the comprehension's condition; the `and` skips the path when the prefix fails. */
  function KeepLink(url: string, link: Link): (r: Result<bool, LinkError>)
    ensures r.Success? <==> !StartsWith(link.href, url) || '/' in link.path
    ensures r.Success? ==> (r.value <==> IsArticleLink(url, link))
  {
    if !StartsWith(link.href, url) then Success(false)
    else
      var segments := Split(link.path, '/');
      if |segments| < 2 then Failure(IndexError)
      else Success(segments[|segments| - 2] == "articleshow")
  }

  /**
   * The `valid_sublinks` comprehension over the absolute links: it raises when some link under
   * `url` has a path without '/', and otherwise keeps, in order, exactly the article links.
   */
  function FilterLinks(url: string, links: seq<Link>): (r: Result<seq<Link>, LinkError>)
    ensures r.Failure? <==> exists i :: 0 <= i < |links| && StartsWith(links[i].href, url) && '/' !in links[i].path
    ensures r.Success? ==> IsSubsequence(r.value, links)
    ensures r.Success? ==> forall l :: l in r.value ==> IsArticleLink(url, l)
    ensures r.Success? ==> forall l :: l in links && IsArticleLink(url, l) ==> l in r.value
    ensures r.Success? ==> forall l :: multiset(r.value)[l] == if IsArticleLink(url, l) then multiset(links)[l] else 0
    decreases |links|
  {
    if links == [] then Success([])
    else
      var head := KeepLink(url, links[0]);
      var tail := FilterLinks(url, links[1..]);
      assert multiset(links) == multiset([links[0]]) + multiset(links[1..]) by {
        assert links == [links[0]] + links[1..];
      }
      if head.Failure? then Failure(head.error)
      else if tail.Failure? then Failure(tail.error)
      else if head.value then
        assert multiset([links[0]] + tail.value) == multiset([links[0]]) + multiset(tail.value);
        Success([links[0]] + tail.value)
      else Success(tail.value)
  }

  // ----- Title and content --------------------------------------------------------------------

  /** The page title with the site's suffix removed. */
  function ArticleTitle(rawTitle: string): (r: string)
    ensures EndsWith(rawTitle, TitleSuffix) ==> r + TitleSuffix == rawTitle
    ensures !EndsWith(rawTitle, TitleSuffix) ==> r == rawTitle
  {
    RemoveSuffix(rawTitle, TitleSuffix)
  }

  /** `"\n\n".join([title, body])`: the content starts with the title. */
  function ArticleContent(title: string, body: string): (r: string)
    ensures r == title + TitleSeparator + body
    ensures StartsWith(r, title)
  {
    assert [title, body][1..] == [body];
    assert Join(TitleSeparator, [body]) == body;
    Join(TitleSeparator, [title, body])
  }

  /** A page that carries the suffix loses exactly that suffix. */
  lemma ArticleTitleStripsSuffix(title: string)
    ensures ArticleTitle(title + TitleSuffix) == title
  {
    assert EndsWith(title + TitleSuffix, TitleSuffix) by {
      assert (title + TitleSuffix)[|title|..] == TitleSuffix;
    }
  }

  // ----- File names ---------------------------------------------------------------------------

  /** The chained `replace` calls that turn a title into a file name. */
  function Sanitize(name: string): (r: string)
    ensures |r| == |name|
    ensures forall i :: 0 <= i < |name| ==> r[i] == if name[i] in Forbidden then '_' else name[i]
    ensures forall i :: 0 <= i < |r| ==> r[i] !in Forbidden
  {
    ReplaceChar(ReplaceChar(ReplaceChar(ReplaceChar(name, '/', '_'), '\\', '_'), ':', '_'), ' ', '_')
  }

  /** Sanitising a file name again changes nothing. */
  lemma SanitizeIdempotent(name: string)
    ensures Sanitize(Sanitize(name)) == Sanitize(name)
  {
    var once := Sanitize(name);
    assert forall i :: 0 <= i < |once| ==> Sanitize(once)[i] == once[i];
  }

  /** Titles that differ only by a forbidden character in place of '_' share a file name. */
  lemma SanitizeMerges(prefix: string, c: char, suffix: string)
    requires c in Forbidden
    ensures Sanitize(prefix + [c] + suffix) == Sanitize(prefix + "_" + suffix)
  {
    var a, b := prefix + [c] + suffix, prefix + "_" + suffix;
    forall i | 0 <= i < |a|
      ensures Sanitize(a)[i] == Sanitize(b)[i]
    {
      if i != |prefix| {
        assert a[i] == b[i];
      } else {
        assert a[i] == c && b[i] == '_';
      }
    }
  }

  /** `os.path.join(a, b)` on POSIX: an absolute `b` replaces `a`. */
  function PathJoin(a: string, b: string): string {
    if StartsWith(b, "/") then b
    else if a == [] || EndsWith(a, "/") then a + b
    else a + "/" + b
  }

  /**
   * The file an article is saved under: the sanitised title plus ".md", inside `outputDir`
   * (a sanitised name never starts with '/', so it never escapes the directory).
   */
  function ArticlePath(outputDir: string, title: string): (r: string)
    ensures r == (if outputDir == [] || EndsWith(outputDir, "/") then outputDir else outputDir + "/")
                 + Sanitize(title) + ArticleExtension
  {
    var fileName := Sanitize(title) + ArticleExtension;
    assert !StartsWith(fileName, "/") by {
      if |title| > 0 {
        assert fileName[0] == Sanitize(title)[0];
      } else {
        assert fileName[0] == '.';
      }
    }
    PathJoin(outputDir, fileName)
  }

  // ----- Saving -------------------------------------------------------------------------------

  /** The directory after writing `text` to `path` only if no file is there yet. */
  function StoreNew(dir: map<string, string>, path: string, text: string): (r: map<string, string>)
    ensures r.Keys == dir.Keys + {path}
    ensures path !in dir ==> r[path] == text
    ensures forall p :: p in dir ==> r[p] == dir[p]
  {
    if path in dir then dir else dir[path := text]
  }

  /** A second save to the same path keeps the first text. */
  lemma StoreNewKeepsFirst(dir: map<string, string>, path: string, first: string, second: string)
    ensures StoreNew(StoreNew(dir, path, first), path, second) == StoreNew(dir, path, first)
  {
  }

  /** A file to be written: its path and its text. */
  datatype Entry = Entry(path: string, text: string)

  /** The directory after saving the entries in order, each only if its path is still free. */
  function SaveAll(dir: map<string, string>, entries: seq<Entry>): map<string, string>
    decreases |entries|
  {
    if entries == [] then dir
    else SaveAll(StoreNew(dir, entries[0].path, entries[0].text), entries[1..])
  }

  /** Saving one more entry after a batch is one more no-overwrite save. */
  lemma {:induction false} SaveAllSnoc(dir: map<string, string>, entries: seq<Entry>, e: Entry)
    ensures SaveAll(dir, entries + [e]) == StoreNew(SaveAll(dir, entries), e.path, e.text)
    decreases |entries|
  {
    if entries == [] {
      assert [e][1..] == [];
    } else {
      assert (entries + [e])[0] == entries[0];
      assert (entries + [e])[1..] == entries[1..] + [e];
      SaveAllSnoc(StoreNew(dir, entries[0].path, entries[0].text), entries[1..], e);
    }
  }

  /** Saving a batch keeps every file that was there, and adds one file per new path. */
  lemma {:induction false} SaveAllKeepsExisting(dir: map<string, string>, entries: seq<Entry>)
    ensures SaveAll(dir, entries).Keys == dir.Keys + set i | 0 <= i < |entries| :: entries[i].path
    ensures forall p :: p in dir ==> SaveAll(dir, entries)[p] == dir[p]
    decreases |entries|
  {
    if entries != [] {
      var next := StoreNew(dir, entries[0].path, entries[0].text);
      var rest := entries[1..];
      SaveAllKeepsExisting(next, rest);
      assert (set i | 0 <= i < |entries| :: entries[i].path)
          == {entries[0].path} + (set i | 0 <= i < |rest| :: rest[i].path) by {
        forall i | 0 <= i < |entries|
          ensures entries[i].path in {entries[0].path} + (set i | 0 <= i < |rest| :: rest[i].path)
        {
          if i > 0 {
            assert entries[i] == rest[i - 1];
          }
        }
      }
    }
  }

  /**
   * A file that was not there before a batch ends up holding the entry that came FIRST among
   * those with its path; later duplicates are dropped.
   */
  lemma {:induction false} SaveAllFirstWins(dir: map<string, string>, entries: seq<Entry>, i: nat)
    requires i < |entries|
    requires entries[i].path !in dir
    requires forall j :: 0 <= j < i ==> entries[j].path != entries[i].path
    ensures entries[i].path in SaveAll(dir, entries)
    ensures SaveAll(dir, entries)[entries[i].path] == entries[i].text
    decreases |entries|
  {
    var next := StoreNew(dir, entries[0].path, entries[0].text);
    var rest := entries[1..];
    if i == 0 {
      SaveAllKeepsExisting(next, rest);
    } else {
      assert entries[i] == rest[i - 1];
      assert entries[0].path != entries[i].path;
      SaveAllFirstWins(next, rest, i - 1);
    }
  }

  /** A fetched page: its title metadata and the text of its article element. */
  datatype Page = Page(rawTitle: string, body: string)

  /** The file `extract_text` writes for a page: named after its title, holding title and body. */
  function PageEntry(outputDir: string, page: Page): Entry {
    var title := ArticleTitle(page.rawTitle);
    Entry(ArticlePath(outputDir, title), ArticleContent(title, page.body))
  }

  /** The files for a sequence of pages, in page order. */
  function PageEntries(outputDir: string, pages: seq<Page>): (r: seq<Entry>)
    ensures |r| == |pages|
    ensures forall i :: 0 <= i < |pages| ==> r[i] == PageEntry(outputDir, pages[i])
    decreases |pages|
  {
    if pages == [] then []
    else [PageEntry(outputDir, pages[0])] + PageEntries(outputDir, pages[1..])
  }

  /** The files of two runs of pages are those of the first run, then those of the second. */
  lemma {:induction false} PageEntriesAppend(outputDir: string, a: seq<Page>, b: seq<Page>)
    ensures PageEntries(outputDir, a + b) == PageEntries(outputDir, a) + PageEntries(outputDir, b)
    decreases |a|
  {
    if a == [] {
      assert a + b == b;
    } else {
      assert (a + b)[0] == a[0];
      assert (a + b)[1..] == a[1..] + b;
      PageEntriesAppend(outputDir, a[1..], b);
    }
  }

  /**
   * A page as `html_loader` returns it: its title metadata, when there is one, and the text of
   * its article element, when the page has one.
   */
  datatype FetchedPage = FetchedPage(title: Option<string>, article: Option<string>)

  /**
   * The pages `extract_text` gets through: the complete pages up to the first page without an
   * article element or without a title. That page raises (`remove_element(None)` or
   * `relevant_html.text` on a missing element, `metadata['title']` on a missing title) before
   * anything of it is saved, and the loop ends there.
   */
  function PagesBeforeFailure(fetched: seq<FetchedPage>): (r: seq<Page>)
    ensures |r| <= |fetched|
    ensures forall j :: 0 <= j < |r| ==>
      fetched[j].title == Some(r[j].rawTitle) && fetched[j].article == Some(r[j].body)
    ensures |r| < |fetched| ==> fetched[|r|].title.None? || fetched[|r|].article.None?
    decreases |fetched|
  {
    if fetched == [] || fetched[0].title.None? || fetched[0].article.None? then []
    else [Page(fetched[0].title.value, fetched[0].article.value)] + PagesBeforeFailure(fetched[1..])
  }

  /** Saving the files of one more page is one more no-overwrite save. */
  lemma SavePagesStep(dir: map<string, string>, outputDir: string, pages: seq<Page>, i: nat)
    requires i < |pages|
    ensures var e := PageEntry(outputDir, pages[i]);
      SaveAll(dir, PageEntries(outputDir, pages[..i + 1]))
        == StoreNew(SaveAll(dir, PageEntries(outputDir, pages[..i])), e.path, e.text)
  {
    var e := PageEntry(outputDir, pages[i]);
    assert pages[..i + 1] == pages[..i] + [pages[i]];
    PageEntriesAppend(outputDir, pages[..i], [pages[i]]);
    assert PageEntries(outputDir, [pages[i]]) == [e];
    SaveAllSnoc(dir, PageEntries(outputDir, pages[..i]), e);
  }

  /** The scraper: the directory it writes into, and what that directory holds. */
  class WebScrap {
    const outputDir: string
    var files: map<string, string>

    /** The scraper over a directory whose existing files are `existing`. */
    constructor (outputDir: string, existing: map<string, string>)
      ensures this.outputDir == outputDir && files == existing
    {
      this.outputDir := outputDir;
      files := existing;
    }

    /** `save_webcontent`: write the article unless its file already exists. */
    method SaveWebcontent(filename: string, text: string)
      modifies this
      ensures files == StoreNew(old(files), ArticlePath(outputDir, filename), text)
    {
      var articleFilename := Sanitize(filename);
      var contentFile := PathJoin(outputDir, articleFilename + ArticleExtension);
      if contentFile !in files {
        files := files[contentFile := text];
      }
    }

    /**
     * `extract_text`: assemble and save each page in turn. The first page without an article
     * element or a title raises, and the pages after it are not saved.
     */
    method ExtractText(fetched: seq<FetchedPage>) returns (raised: bool)
      modifies this
      ensures files == SaveAll(old(files), PageEntries(outputDir, PagesBeforeFailure(fetched)))
      ensures raised <==> |PagesBeforeFailure(fetched)| < |fetched|
    {
      ghost var pages := PagesBeforeFailure(fetched);
      raised := false;
      for i := 0 to |fetched|
        invariant i <= |pages|
        invariant files == SaveAll(old(files), PageEntries(outputDir, pages[..i]))
      {
        if fetched[i].article.None? || fetched[i].title.None? {
          assert i == |pages|;
          assert pages[..i] == pages;
          raised := true;
          return;
        }
        var title := ArticleTitle(fetched[i].title.value);
        var content := ArticleContent(title, fetched[i].article.value);
        SaveWebcontent(title, content);
        SavePagesStep(old(files), outputDir, pages, i);
      }
      assert pages[..|fetched|] == pages;
    }
  }
}
