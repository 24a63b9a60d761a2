# genereto, modelled in Dafny

genereto is a static site generator. It reads a project folder: `config.yml`, a
template folder and a `content` folder of markdown pages, with an optional `blog`
folder and `blog.yml` manifest. It writes an `output` folder. This project models
the generator's core and proves properties of it:

- **Metadata of a page** (`page_metadata.dfy`, `toc.dfy`, `headings.dfy`):
  - a to-do marker (`$GENERETO{TODO`) promotes a page to draft, and a draft's title is prefixed `[DRAFT] `;
  - reading time in whole minutes at 238 words per minute;
  - the description of at most about 150 characters, cut at a word boundary;
  - the table of contents, with nested lists by heading depth;
  - the last modification date, taken from git's answer or the publish date;
  - the newest-first order of pages;
  - the `$GENERETO['…']` placeholders a template is filled with.
- **The page module's own examples** (`page_examples.dfy`): the two tables of contents, the description of a short page and the anchors those tables link to, each proved for the exact text the examples expect.
- **Line passes over markdown** (`parser.dfy`, `line_scan.dfy`): both passes know about fenced code.
  - Heading ids (`{#anchor}`) are appended to headings.
  - `$GENERETO{…}` comments are removed, whole-line or inline.
- **Blog assembly** (`blog.dfy`):
  - collecting the articles of the manifest and the blog folder, under the drafts policy (hide, build, dev);
  - sorting and filtering the listing;
  - paginating the index with `-page-N` file names and prev/next navigation;
  - splicing the rendered entries between the index template's start and end markers.
- **RSS items** (`rss.dfy`, `dates.dfy`): one item per published article. The date is rewritten in the date-time form of section 5 of RFC 822.
- **Configuration paths** (`config.dfy`, `paths.dfy`):
  - the template folder, chosen from `template_base_path` and `template`;
  - the output, content and blog folders;
  - the destination of each copied or rendered file, where `.md` becomes `.html`.

`strings.dfy`, `seqs.dfy` and `wrappers.dfy` hold the text, sequence and option
helpers the other modules share. Paths are values made of an absolute flag and the
list of their components, as `std::path` reads them. A line split is Rust's
`lines()` on `\n`.

Where the program's own comments and its code disagree, the model follows the code:

- **Fenced code in the comment filter.** The comment above `filter_out_comments` (src/parser.rs:38-40) says that it removes comments: a whole line when the comment is all of it, the comment alone otherwise. The code also skips every line inside fenced code, opening fence included (src/parser.rs:47-52), so code blocks vanish. See Findings.
- **Explicit descriptions.** The doc comment of the frontmatter's `description` field (src/page_metadata.rs:24) says the first 150 characters are used only when it is empty. The code always derives the description from the body (src/page_metadata.rs:74), so the model's `Page.description` ignores the frontmatter's.
- **Last modification date.** The doc comment of `get_last_modified_date` (src/page_metadata.rs:123) promises the more recent of git's date and the publish date. The code parses both with `unwrap` (src/page_metadata.rs:130-131) and panics when either does not parse, an empty publish date with a git date among them. So `PageMetadata.LastModifiedDate` requires both to parse whenever git's date is used.

## Model

| member | source | states |
|---|---|---|
| PageMetadata.New | src/page_metadata.rs:50-79 | a page is a draft exactly when its frontmatter says so or its body holds a to-do marker; a draft's title is `[DRAFT] ` plus the title; the table of contents is computed only when asked for; reading time, description and last modification date are those of the body and dates; file name, date and keywords are carried over |
| PageMetadata.ContainsTodos | src/page_metadata.rs:140-143 | true exactly when the body contains `$GENERETO{TODO` somewhere |
| PageMetadata.ReadingMinutesSpec | src/page_metadata.rs:145-158 | zero minutes exactly for zero words; r minutes below the u16 maximum means (r-1)·238 < words ≤ r·238, i.e. the ceiling of words/238; a result of 65535 means more than 65534·238 words |
| PageMetadata.EstimateReadingTime | src/page_metadata.rs:145-158 | the estimate never exceeds the u16 maximum |
| PageMetadata.WordsAreWords | src/page_metadata.rs:151-152 | `split_whitespace` yields only non-empty words without whitespace |
| PageMetadata.WordsOfJoinWords | src/page_metadata.rs:151-152 | splitting words joined by single spaces gives back exactly those words |
| PageMetadata.TruncatedSpec | src/page_metadata.rs:180-194 | text within the limit is unchanged; longer text becomes a prefix of at most `limit` characters, cut at its last space when the first `limit` characters have one, followed by `...` |
| PageMetadata.TruncateText | src/page_metadata.rs:180-194 | the method computes the truncation specified by `Truncated` |
| PageMetadata.CollectedSpec | src/page_metadata.rs:160-176 | the description buffer is the first n description lines, each newline-terminated; n ≥ 1 when there is a line; reading stops at the first prefix reaching the limit, and every shorter prefix was below it |
| PageMetadata.CollectLines | src/page_metadata.rs:161-176 | the accumulation loop with its early break computes `Collected` of the lines' description texts (heading text with its id removed, other lines verbatim) |
| PageMetadata.GetDescription | src/page_metadata.rs:160-178 | the description is the collected buffer truncated to the limit |
| PageMetadata.CompareEqual | src/page_metadata.rs:97-112 | the order says equal exactly when the two pages have the same publish date, agreeing with `eq` |
| PageMetadata.CompareAntisymmetric | src/page_metadata.rs:97-106 | swapping the pages reverses the order |
| PageMetadata.CompareTransitive | src/page_metadata.rs:97-106 | "not after" is transitive, so the order is a total preorder newest first |
| PageMetadata.LastModifiedOfGitDate | src/page_metadata.rs:124-137 | with a non-empty git date, the result is the publish date when git's date is earlier, and git's date otherwise |
| PageMetadata.LastModifiedNotBeforePublish | src/page_metadata.rs:124-137 | the last modification date is a valid date never before the publish date |
| PageMetadata.Truncated | src/page_metadata.rs:180-194 | the truncation is at most `limit` characters plus three, and text longer than the limit ends in `...` |
| PageMetadata.Description | src/page_metadata.rs:160-178 | the description is at most the limit plus three characters long |
| PageMetadata.LastModifiedDate | src/page_metadata.rs:124-137 | the result is the publish date or git's date; it is the publish date when git gave nothing or an empty date; when it is git's date, that date is not before the publish date |
| PageMetadata.Compare | src/page_metadata.rs:97-106 | two pages compare as their publish dates do, read the other way round, so newer pages come first |
| PageMetadata.Variables | src/page_metadata.rs:80-94 | eight placeholders, the first being the trimmed title |
| PageMetadata.Apply | src/page_metadata.rs:80-94 | a template without a `$GENERETO['` mark comes back unchanged, whatever the page |
| PageMetadata.ApplyTitle | src/page_metadata.rs:82 | the title placeholder alone becomes the trimmed title |
| PageMetadata.ApplyTitleDescription | src/page_metadata.rs:80-94 | a template of `$`-free text around the title and the description placeholders, for a page whose trimmed title and description hold no `$`, becomes that text around the trimmed title and the trimmed description |
| Headings.RemoveSpecialCharactersSpec | src/page_metadata.rs:266-272 | the result keeps exactly the ASCII letters, digits and whitespace of the input, in order, and is the input when it has nothing else |
| Headings.RemoveSpecialCharacters | src/page_metadata.rs:266-272 | the result is never longer than the input |
| Headings.AnchorId | src/page_metadata.rs:260-264 | an anchor id is never longer than its title |
| Headings.AnchorIdChars | src/page_metadata.rs:260-264 | an anchor id holds only lower-case letters, digits, `-` and non-space whitespace: never a space or a `{`, and a newline only if the title had one |
| Headings.AnchorIdOfPlainTitle | src/page_metadata.rs:260-264 | a title of lower-case letters, digits and spaces becomes itself with every space made `-` |
| Headings.RemoveAfterLastCharacterSpec | src/page_metadata.rs:275-281 | with the character present, the result is the input's prefix before its last occurrence; without it, the input itself |
| Headings.RemoveAfterLastCharacter | src/page_metadata.rs:275-281 | the result is never longer than the input |
| Headings.RemoveAfterLastCharacterCut | src/page_metadata.rs:275-281 | text, then the character, then a part without it is cut back to exactly that text |
| Headings.RemoveAfterLastCharacterExample | src/page_metadata.rs:335-345 | `QA {hello} {id}` loses only its last `{…}` part |
| Headings.RemoveAfterLastCharacterWithoutBrace | src/page_metadata.rs:335-345 | text without the character is returned unchanged |
| Headings.DepthSpec | src/page_metadata.rs:225 | a heading's depth is the number of its leading `#` |
| Headings.HeadingTextOfAnnotated | src/page_metadata.rs:163-168 | after an id suffix is appended, the description text of the heading is its original title and its depth is unchanged |
| Toc.TableOfContents | src/page_metadata.rs:214-258 | the table of contents starts with the outer list's header and ends with `</ul>` |
| Toc.TocEntries | src/page_metadata.rs:220-249 | there are never more entries than lines, and every entry is anchored: its anchor id is that of its title |
| Toc.TableOfContentsTrimmed | src/page_metadata.rs:310-311 | the table of contents starts and ends with a non-space character, so trimming leaves it unchanged, as the tests compare trimmed texts |
| Toc.TocTextIsBody | src/page_metadata.rs:220-255 | the line-by-line text equals the rendering of the list of headings found outside fenced code |
| Toc.TocBodyShape | src/page_metadata.rs:220-255 | the body is every entry's transition and link, in order, then one closer per depth level still open above 2 |
| Toc.FencedBlockUnlisted | src/page_metadata.rs:221-223 | headings inside a fenced block never reach the table of contents |
| Toc.HeadingListed | src/page_metadata.rs:224-246 | a heading outside code is the next entry of the table of contents |
| Toc.CodeLinesUnlisted | src/page_metadata.rs:221-224 | inside fenced code no line contributes an entry |
| Toc.ScanLine | src/page_metadata.rs:220-249 | one loop iteration: the fence toggle; a heading outside code appends its transition and link and becomes the current depth; anything else changes nothing |
| Toc.CloseLists | src/page_metadata.rs:252-255 | the trailing loop adds one closer per level still open above depth 2 |
| Toc.GenerateTableOfContents | src/page_metadata.rs:214-258 | the method computes `TableOfContents` |
| Parser.AddIdsToHeadings | src/parser.rs:18-36 | the pass computes `AddIds`: each line in order, newline-terminated, annotated as specified |
| Parser.AnnotateLine | src/parser.rs:23-31 | one iteration: the fence flag after the toggle, and the line with `{#anchor}` appended exactly when it is a heading outside code |
| Parser.AnnotatedLinesUnfold | src/parser.rs:22-34 | the line-by-line definition agrees with the loop-carried flag: the first line is written under its own fence toggle, and the rest exactly as a pass that starts on the second line with that flag |
| Parser.AddIds | src/parser.rs:18-36 | the lines of the output are the input's lines annotated in order, starting outside fenced code, and there are as many of them as in the input |
| Parser.AnnotatedFenceStates | src/parser.rs:24-26 | annotating does not change where fenced code begins and ends |
| Parser.AnnotatedTocLinksToIds | src/parser.rs:27-31 | the table of contents of the annotated text lists each annotated heading with exactly the anchor the pass appended to it |
| Parser.AnnotatedEntry | src/parser.rs:27-31 | an annotated heading's entry has the original depth, the appended id and the original title |
| Parser.FilterOutComments | src/parser.rs:41-68 | the filter computes `FilterComments` whenever every inline comment outside code is closed by a `}` |
| Parser.FilterLine | src/parser.rs:46-65 | one iteration: the fence flag after the toggle, and outside code the line as the filter writes it (nothing for a comment line, the line without its inline comment, or the line and its newline) |
| Parser.FilterComments | src/parser.rs:41-68 | a text without any comment or fence comes out as its lines, each newline-terminated |
| Parser.CommentLineVanishes | src/parser.rs:54-56 | a line starting with `$GENERETO{` disappears together with its newline |
| Parser.PlainLineKept | src/parser.rs:62-64 | a line without a comment is copied with its newline |
| Parser.InlineCommentRemoved | src/parser.rs:57-61 | a comment inside a line is removed with all its copies; the rest of the line stays, and the line loses its newline |
| Parser.InlineCommentAlone | src/parser.rs:57-61 | text followed by an inline comment becomes the text alone |
| Parser.CommentFilterExample | src/parser.rs:75-81 | the source's example: a comment line, a plain line and a line ending in a comment give the plain line, a newline, and the third line's text |
| Parser.FencedBlockDropped | src/parser.rs:47-52 | a fenced block's opening fence and contents vanish from the filtered output and only its closing fence remains |
| Parser.FencedBlockKept | src/parser.rs:47-52 | corrected filter: a fenced block's fence and contents are copied through |
| Blog.PageFilename | src/blog.rs:35-50 | page 1 is the index name itself |
| Blog.PageFilenameOfName | src/blog.rs:35-50 | page n ≠ 1 of `stem.ext` is `stem-page-n.ext`, one `-page-n` longer |
| Blog.PageFilenameOfStem | src/blog.rs:35-50 | the same for a name given as stem and extension |
| Blog.PageFilenamesDistinct | src/blog.rs:35-50 | distinct page numbers beyond the first get distinct file names |
| Blog.PageFilenameExample | src/blog.rs:522-540 | page 1 of `index.html` is `index.html`; pages 2 and 10 are `index-page-2.html` and `index-page-10.html`; page 1 of `blog.html` is `blog.html` and page 3 is `blog-page-3.html` |
| Blog.NavHtml | src/blog.rs:53-73 | the navigation starts with `<nav class="pagination">` and a newline and ends with `</nav>` |
| Blog.BuildPaginationHtml | src/blog.rs:53-73 | the method builds the navigation `NavHtml` |
| Blog.NavHtmlLinks | src/blog.rs:53-73 | the navigation links to the previous page when there is one, to the next page when there is one, and always shows "Page i of n" |
| Blog.ListedArticlesSpec | src/blog.rs:116-121 | the listing keeps, in order, exactly the articles that are not the error page and, outside dev mode, not drafts |
| Blog.ListedArticles | src/blog.rs:117-121 | the listing is never longer than the articles; when every article is listed it is all of them, and when every article is the error page it is empty |
| Blog.SortByDate | src/blog.rs:104 | sorting permutes the articles, keeping each as often as it occurs |
| Blog.Insert | src/blog.rs:104 | inserting adds exactly the one article to the others |
| Blog.SortByDateSorted | src/blog.rs:104 | sorting orders the articles newest first and is a permutation |
| Blog.SortByDateStable | src/blog.rs:104 | articles of the same date keep their relative order |
| Blog.SortedNewestFirst | src/blog.rs:104 | in a sorted listing an earlier article never has an older publish date |
| Blog.GeneratePages | src/blog.rs:123-152 | the page loop computes `PaginatedPages` |
| Blog.IndexPages | src/blog.rs:123-180 | the pages, read in order, hold exactly the listing; there are pages unless paging is on and there are no articles; the first page is the index name; without paging there is one page with every article and no navigation |
| Blog.PagesCoverArticles | src/blog.rs:123-126 | the pages hold the listing in order, each article once; every page is non-empty and at most the page size, all but the last are full, as few pages as that takes; no articles means no pages |
| Blog.PagesLinked | src/blog.rs:128-152 | page i+1 of n: it has a previous page exactly when not first, a next page exactly when not last, each link naming that neighbour's file; the first page is the index name |
| Blog.PagesDistinct | src/blog.rs:128-131 | no two pages after the first share a file name |
| Blog.PageFileNameAt | src/blog.rs:129-130 | page i+1 is written to `PageFilename(index, i+1)` |
| Blog.FiveArticlesTwoPerPage | src/blog.rs:123-126 | five articles at two per page give pages of 2, 2 and 1 |
| Blog.PagesEntriesFlatten | src/blog.rs:123-163 | the entries of the pages, read one page after another, are the entries of the whole listing |
| Blog.BuildIndexPage | src/blog.rs:201-240 | the marker-branch steps (find the markers, choose the entry, render the entries, splice, replace pagination then title) compute the page `RenderedIndex` |
| Blog.RenderedIndex | src/blog.rs:201-240 | the page starts with the template's text before the start marker whenever that text holds no `$` |
| Blog.RenderedIndexParts | src/blog.rs:201-240 | for a template `head + start marker + inner + end marker + tail` with no start marker in the head, no end marker before its place and the head not ending inside a placeholder: the entry is the trimmed inner text (the default entry when blank), and the page is the head, then every article's entry, then the tail, each with the pagination html and then the title replaced |
| Blog.SplicedFilled | src/blog.rs:224-239 | replacing the placeholders in the spliced template equals replacing them in the head, in the entries and in the tail separately |
| Blog.MarkersAt | src/blog.rs:205-206 | in such a template the start marker is found right after the head and the end marker right after the inner text |
| Blog.SplicedAt | src/blog.rs:205-224 | splicing such a template keeps the head and the tail and puts the entries in place of the markers and the inner text |
| Blog.PatternsAt | src/blog.rs:205-206 | the first occurrences of the two markers are where the template placed them |
| Blog.FillAppend | src/blog.rs:232-239 | the two replacements distribute over a concatenation whose left part does not end inside a placeholder |
| Blog.FillPagination | src/blog.rs:232 | a pagination placeholder after `$`-free text becomes the navigation html |
| Blog.FillTitle | src/blog.rs:235-239 | a title placeholder after `$`-free text becomes the title |
| Blog.FillPlain | src/blog.rs:232-239 | text without `$` is left unchanged by both replacements |
| Blog.EntryInEntries | src/blog.rs:216-222 | every article's filled-in entry is part of the rendered entries |
| Blog.EntriesFilled | src/blog.rs:216-239 | entries made from an entry template showing only title and description, for articles whose trimmed titles and descriptions hold no `$`, are left unchanged by the later replacements |
| Blog.TitleDescriptionEntries | src/blog.rs:216-222 | for such an entry template, `a0 + title + a1 + description + a2` of each article, with its trimmed title and description, is part of the entries |
| Blog.TitleDescriptionPage | src/blog.rs:201-240 | for the template `head-open + title placeholder + head-close`, start marker, the entry on lines of its own, end marker, tail: the page is head-open, the blog title or else the site title, head-close, the entries, then the tail with pagination and title replaced |
| BlogExamples.BuildIndexPageTest | src/blog.rs:415-519 | on the test's template and two articles, the page holds `<title>` with the blog title or else `Main Title`, and `<h2>Test Article 1</h2>`, `<p>Test description 1</p>`, `<h2>Test Article 2</h2>`, `<p>Test description 2</p>` |
| BlogExamples.BuildIndexPageTitles | src/blog.rs:415-519 | with the blog title `Custom Blog Title` the page holds `<title>Custom Blog Title</title>` and both articles' headings and descriptions; without one it holds `<title>Main Title</title>` |
| Blog.ChooseEntryTemplate | src/blog.rs:205-214 | the entry template is the trimmed text between the markers, or the default entry when that is blank |
| Blog.RenderEntries | src/blog.rs:216-222 | each article's filled-in entry followed by a newline, in order |
| Blog.EntriesHtmlAppend | src/blog.rs:216-222 | the entries of two consecutive lists are the two entry texts one after the other |
| Blog.SplicedParts | src/blog.rs:224 | the splice keeps the template before the start marker and after the end marker and puts the entries in between |
| Blog.BuildArticles | src/blog.rs:249-349 | the manifest's pages, then each published markdown page of the folder, in reading order; files are written only when single pages are generated |
| Blog.FolderArticlesSpec | src/blog.rs:292-347 | the folder contributes exactly its published markdown pages, in reading order |
| Blog.FolderWritesSpec | src/blog.rs:333-341 | a destination is written exactly for each published markdown page |
| Blog.DraftsUnlisted | src/blog.rs:117-121 | outside dev mode the listing holds no draft, whether from the manifest or the folder |
| Blog.DraftsHidden | src/blog.rs:334-336 | under the hide policy a draft of the folder is neither returned nor written |
| Blog.DevListsDrafts | src/blog.rs:117-121 | in dev mode every markdown page except the error page is listed, drafts included |
| Blog.BuildKeepsDrafts | src/blog.rs:334-343 | outside the hide policy every markdown page is returned and written |
| Rss.ArticlesToItemsSpec | src/rss_generation.rs:28-41 | one item per article that is neither a draft nor `error.html`, in order, with its title and description, its link under the url and its converted date; every such article has its item |
| Rss.ArticlesToItems | src/rss_generation.rs:28-41 | never more items than articles; when every article is in the feed, item i is the item of article i; when none is, no item |
| Rss.InFeedIsListed | src/rss_generation.rs:31 | the feed takes exactly the articles a build- or hide-mode index lists |
| Rss.ItemsOfListedArticles | src/rss_generation.rs:28-41 | the items are those of the built index's listing |
| Rss.ArticlesToItemsAppend | src/rss_generation.rs:28-41 | the items of consecutive article lists are consecutive |
| Rss.ComplaintDateOfDate | src/rss_generation.rs:44-53 | every valid date with a four-digit year is written in its RFC 822 form |
| Rss.ComplaintDateConverts | src/rss_generation.rs:44-48 | a date that parses is the canonical text of that day and becomes a 29-character RFC 822 date-time |
| Rss.ComplaintDate | src/rss_generation.rs:44-53 | a date that does not parse comes back unchanged; one that parses becomes 29 characters ending in ` 00:00:00 UTC` |
| Rss.ComplaintDatePassThrough | src/rss_generation.rs:49-52 | text that is not `DDDD-DD-DD`, has a month outside 1..12 or a February day past 29 is returned unchanged |
| Rss.Rfc822Shape | src/rss_generation.rs:48 | the date-time is weekday, comma, two-digit day, month name, four-digit year and ` 00:00:00 UTC` |
| Rss.Rfc822Injective | src/rss_generation.rs:48 | distinct days get distinct date-times |
| Rss.ConsecutiveFeedDays | src/rss_generation.rs:48 | consecutive days are given consecutive weekday names |
| Rss.ComplaintDateExample | src/rss_generation.rs:58-64 | `2018-08-06` becomes `Mon, 06 Aug 2018 00:00:00 UTC` |
| Dates.ParseFormatRoundTrip | src/rss_generation.rs:46 | formatting a valid date and parsing it back gives the date |
| Dates.FormatParseRoundTrip | src/rss_generation.rs:46 | text that parses is the formatted text of its date |
| Dates.ConsecutiveWeekdays | src/rss_generation.rs:48 | the day after has the next weekday |
| Config.LoadedFolders | src/config/mod.rs:81-121 | output and content folders are `output` and `content` inside the project; project path and raw fields are carried over |
| Config.BlogDestination | src/config/mod.rs:68 | a relative blog destination is the project's `output` folder followed by the destination's components, so it lies inside the output folder and the project; an absolute destination is taken as is |
| Config.BlogTemplatePath | src/config/mod.rs:64-67 | with a relative template and base template, the blog's index template is the project's `templates` folder, then the template's components, then the base template's, so it lies inside the template's folder there and inside the project |
| Config.BlogTemplateIgnoresBasePath | src/config/mod.rs:64-67 | the blog's index template is the same whatever `template_base_path` says |
| Config.LoadFromFolder | src/config/mod.rs:81-121 | the project path is kept; output and content folders lie inside the project; the template folder is `TemplateDir` and the blog settings are `NewBlogFromRaw` |
| Config.NewBlogFromRaw | src/config/mod.rs:62-77 | with a relative template and base template, the index template lies inside `templates/<template>` of the project; a relative destination lies inside the output folder; an absolute one is taken as is |
| Config.TemplateDir | src/config/mod.rs:87-104 | with a relative template, the template folder lies inside its root: the base path as joined to the project, or the project's `templates` folder |
| Config.TemplateDirDefault | src/config/mod.rs:102-104 | without a base path the template folder is `templates/<template>` inside the project |
| Config.TemplateDirRelativeBase | src/config/mod.rs:94-101 | a relative base path is taken inside the project, followed by the template unless it is empty |
| Config.TemplateDirAbsoluteBase | src/config/mod.rs:88-93 | an absolute base path is taken as is, followed by the template unless it is empty |
| Config.TemplateDirAsText | src/config/mod.rs:87-101 | with both set, the template folder is the project joined with `base/template` |
| Config.RelativeBaseExample | tests/config.rs:134-144 | `custom/template/path` with `test_template` gives the project's `custom/template/path/test_template` |
| Config.AbsoluteBaseExample | tests/config.rs:146-156 | `/custom/template/path` with an empty template gives `/custom/template/path` |
| Config.DestPathShape | src/config/mod.rs:131-141 | the destination is the base with one more component, the entry's output name |
| Config.InnerGetDestPath | src/config/mod.rs:131-141 | for a well-formed entry, the destination lies inside the base and its file name is the entry's output name |
| Config.DirectoryKeepsName | src/config/mod.rs:136-137 | a directory keeps its file name |
| Config.MarkdownBecomesHtml | src/config/mod.rs:139 | `stem.md` becomes `stem.html` |
| Config.EveryMarkdownReplaced | src/config/mod.rs:139 | every `.md` in a file name is replaced, not only the extension |
| Config.OtherFileKeepsName | src/config/mod.rs:139 | a name without `.md` is unchanged |
| Config.DestNameHasNoMarkdown | src/config/mod.rs:139 | no output file name contains `.md` |
| PageExamples.TableOfContentsFirstTest | src/page_metadata.rs:291-311 | the first test's page has a table of contents, and it is exactly the expected HTML: three entries at depth 2 and one at depth 3, then an entry at depth 1 ending the list |
| PageExamples.TableOfContentsSecondTest | src/page_metadata.rs:312-332 | the second test's page gives exactly the expected HTML, with the last entry at depth 3 and both open lists closed |
| PageExamples.FiveHeadingsToc | src/page_metadata.rs:214-258 | for any five plain headings at depths 2, 2, 3, 2 and any, the table of contents is the header, the five links with the transitions between them, and the closers of the last depth |
| PageExamples.HeadingLine | src/page_metadata.rs:224-246 | `#…# title` for a plain title is a heading, not a fence, whose entry has the number of `#` as depth, the title's anchor and the title |
| PageExamples.DescriptionTest | src/page_metadata.rs:347-353 | the test's heading with an id and one line of prose give exactly `Introduction\nThis is a test description.\n` at limit 100 |
| PageExamples.HeadingAndProseDescription | src/page_metadata.rs:160-178 | a heading with an id followed by a line of prose, within the limit, describes as the title and the prose, each newline-terminated |
| PageExamples.AnchorAdvancedFeatures | src/page_metadata.rs:308 | `Advanced Features!!!!` is anchored `advanced-features`: the exclamation marks are dropped from the anchor only |
| PageExamples.AnchorIntroduction | src/page_metadata.rs:301 | `Introduction` is anchored `introduction` |
| PageExamples.AnchorGettingStarted | src/page_metadata.rs:302 | `Getting Started` is anchored `getting-started` |
| PageExamples.AnchorInstallation | src/page_metadata.rs:304 | `Installation` is anchored `installation` |
| PageExamples.AnchorBasicUsage | src/page_metadata.rs:306 | `Basic Usage` is anchored `basic-usage` |
| PageExamples.AnchorOfGettingStartedAnchor | src/page_metadata.rs:260-264 | an anchor id is not a fixed point: the anchor of `getting-started` is `gettingstarted`, as the hyphen is a special character |
| PageExamples.AnchorIdIsChars | src/page_metadata.rs:260-264 | the anchor id is the concatenation of what each of the title's characters contributes: its lower case, `-` for a space, nothing for a special character |
| PageExamples.AnchorOfTwoWords | src/page_metadata.rs:260-264 | two capitalised words joined by a space are anchored as both words in lower case joined by `-` |
| PageExamples.AnchorDropsTail | src/page_metadata.rs:260-264 | special characters appended to a title do not change its anchor |
| Seqs.ChunksCount | src/blog.rs:125 | `chunks(n)` gives as few chunks as hold all the articles, and none for none |
| Paths.ComponentsSlash | src/config/mod.rs:131-141 | joining text with a `/` joins its path components |

## Left out

- **I/O.** Reading and writing files, `fs::read_dir`, `exists`/`is_dir`/`is_file` and directory copying are not modelled. The blog folder is given as a list of entries already classified and compiled. An entry's directory flag is a parameter of the destination functions.
- **The git subprocess.** `get_last_modified_date_of_file_from_git` is not modelled. Its answer is a parameter of `PageMetadata.LastModifiedDate` and `PageMetadata.New`.
- **YAML and serde.** Reading `config.yml`, `blog.yml` and the frontmatter is not modelled. The model starts from the raw values with defaults filled in. `src/config/raw.rs` is not part of this model.
- **Jinja and the rest of the pipeline.**
  - Jinja rendering (`site_context`) and `src/jinja_processor.rs` are not part of this model. Only the marker-based branch of `build_index_page` is.
  - Markdown rendering (`compile_page_phase_1`/`_2`), `process_includes`, `load_template`, `validate_project_folders`, `should_generate_blog` and `generate_rss`'s channel and XML writing are outside this model. They are library calls or I/O.
- **Characters and encoding.** Unicode is not modelled: letters, digits and whitespace are the ASCII ones. So `is_alphabetic` and `is_alphanumeric` are modelled on ASCII. Byte lengths equal character counts, and `lines()` does not strip a trailing `\r`.
- **Date parsing.** Dates are parsed strictly as `YYYY-MM-DD` with four-digit years. chrono's `%Y-%m-%d` also accepts one-digit months and days and signed or longer years.
- **Page fields.** These are not in the model: cover image, `add_title`, article and website url, `template_file`, custom metadata, and the `default_cover_image` field read at src/config/mod.rs:118.
- **Future-dated drafts.** Turning a future-dated page into a draft is not in the modelled files.
- **PageMetadata.Apply.** `apply` is not in the modelled files. It is modelled as replacing each placeholder of `get_variables` in turn.
- **PageMetadata.EstimateReadingTime.** It computes the f64 ceiling and the saturating cast to u16 as an integer ceiling clamped at 65535. Floating-point rounding is not modelled.
- **Blog.SortByDate.** `sort_by` is modelled as a stable sort function on values, not in place.
- **Blog.NavHtmlLinks.** It does not prove the converse, that the previous-page class is absent when there is no previous page. That holds only when the page urls do not themselves contain the class names, and the urls are arbitrary text in the model. The source's tests (src/blog.rs:570, src/blog.rs:585) check it only for plain urls.
- **Panics become preconditions.** The following source panics appear as preconditions in the model:
  - the table of contents of a page without a heading (`toc[6..]`);
  - an inline comment without a closing `}`, or whose first `}` lies more than one character before its marker, as the slice from the marker to just past that `}` panics then (src/parser.rs:60-61);
  - an index template without both markers, or whose end marker begins before the start marker ends, which makes the slice between them panic (src/blog.rs:207);
  - an entry path without a file name;
  - a page size of 0;
  - an unparsable date in `get_last_modified_date`.

  The `to_str().unwrap()` failures on non-UTF-8 names do not arise, because names are strings.
- **Parser.FilterOutComments.** It models the code as written, which drops fenced code lines. The corrected behaviour is the separate definition `Parser.FilteredTextKeepingCode`.

## Findings

| source | as written | input that shows it | evidently intended | confidence | as-written member | corrected member |
|---|---|---|---|---|---|---|
| src/parser.rs:47-52 | `filter_out_comments` skips every line while inside a fenced code block, including the opening fence, so every code block vanishes from the page except its closing fence | "```" then "code" then "```" filters to just "```" and a newline | code blocks are copied through untouched, only comments outside code being removed | medium, not executed | Parser.FencedBlockDropped | Parser.FencedBlockKept |
