# SEO linter and blog helpers, in Dafny

This project models two Python files of a small file-based blog.

- `seo_linter.py` checks the frontmatter of every post before a commit.
  - `lint_file` checks one post. It reports a MISSING KEY error for each required key that is absent or falsy. It then puts the title, the description and the slug length into bands: an error band, a warning band or a clean band. It also checks the slug against `^[a-z0-9-]+$`.
  - When opening or parsing the file raises, or a `len` raises, it appends FILE READ ERROR and runs no further checks.
  - `main` lints every `.md` file of the listing and reports each file that has findings. It exits with 1 exactly when some file has an error; warnings never fail the check.
- `app.py` serves the blog.
  - `get_posts` turns the listing into post slugs.
  - The post page and the sitemap compute an image URL from the bucket endpoint.
  - The sitemap falls back from `updated_at` to `created_at`.
  - `robots` builds production or development lines and joins them with newlines.

Modules:

- `Wrappers`: `Option`.
- `Frontmatter`: a parsed YAML value, and the Python built-ins the rules use on it: truthiness, `str`, `len` and `dict.get`.
- `FileNames`: the `.md` filter and the suffix strip.
- `SeoRules`: the limits and `REQUIRED_KEYS`, the messages, and the specification function `Lint`. It also holds the method `LintFile`, which appends step by step like the source and is proved equal to `Lint`.
- `SeoProperties`: what the report contains, section by section, and where a raised exception leaves it.
- `SeoRun`: `main` as the method `RunLinter`, which returns the exit status and the reports. It is proved against `ExitStatus` and `ReportedFiles`.
- `Blog`: `GetPosts`, `ImageUrl` and `PostDetail`, `Lastmod`, `Sitemap`, `Robots`, and the `Split`/`Join` round trip.

A value is one of four kinds:

- a string;
- `None`;
- a scalar (number, boolean or date), on which `len` raises;
- a collection, whose `len` is its size.

An environment variable is an `Option<string>`. An f-string renders an unset variable as `None`.

Three points of Python behaviour are modelled as the code has them:

- The slug-length messages report `len(slug)`, not `len(str(slug))`. A number, boolean or date slug whose text runs past 75 characters therefore raises, and that post gets FILE READ ERROR. A list or mapping slug reports its size.
- Python's `$` also matches just before one final newline. `"post-2\n"` passes the slug pattern.
- A `len` that raises partway through keeps the findings made before it and then adds FILE READ ERROR. One might expect a read failure to give a single error; the model follows the code.

## Model

| member | source | states |
|---|---|---|
| Frontmatter.Len | seo_linter.py:58-64 | `len` of a string is its length and of a collection its size; `len` fails exactly on `None` and on scalars |
| Frontmatter.Get | seo_linter.py:57 | `meta.get(key, default)` gives the stored value when the key is present and the default otherwise |
| FileNames.Stem | app.py:29 | stripping `.md` leaves the name that, suffixed again, gives the file name back |
| FileNames.StemOfSuffixed | app.py:28-29 | a slug plus `.md` passes the filter and strips back to the slug |
| SeoRules.LeadingRun | seo_linter.py:80 | the greedy `[a-z0-9-]+` run: all slug characters, and stopped by the first character that is not one |
| SeoRules.LintFile | seo_linter.py:40-90 | the errors and warnings built up by appending are exactly the report `Lint` specifies, including the early exit to FILE READ ERROR |
| SeoProperties.MissingKeyErrorsCount | seo_linter.py:52-54 | over distinct keys, MISSING KEY for a key appears once if the key is required and missing, otherwise never |
| SeoProperties.MissingKeysFirst | seo_linter.py:52-54 | the MISSING KEY errors, in `REQUIRED_KEYS` order, form a prefix of the errors and are all of the existence errors |
| SeoProperties.MissingKeyExactlyOnce | seo_linter.py:52-54 | the report holds MISSING KEY for a key once when the key is required and absent or falsy, and otherwise not at all |
| SeoProperties.NoneMissing | seo_linter.py:52-54 | with every key present and truthy there is no MISSING KEY error |
| SeoProperties.AllMissing | seo_linter.py:52-54 | with every key missing, each key is reported, in order |
| SeoProperties.TitleBands | seo_linter.py:58-64 | a title of length n: TITLE CRITICAL above 70 or below 10, a truncation warning from 61 to 70, nothing otherwise |
| SeoProperties.DescBands | seo_linter.py:68-76 | a description of length n: DESC CRITICAL above 300 or below 10, a truncation warning from 161 to 300, a weak warning from 10 to 49 |
| SeoProperties.TagsIdentifySection | seo_linter.py:54-88 | messages printed with the same tag come from the same check |
| SeoProperties.CriticalTags | seo_linter.py:59-76 | both title errors print as TITLE CRITICAL and both description errors as DESC CRITICAL, while the title and description warnings print with other tags |
| SeoProperties.TitleCriticalReported | seo_linter.py:57-64 | when the title can be measured, the report has an error tagged TITLE CRITICAL exactly when the title is longer than 70 or shorter than 10 characters |
| SeoProperties.TitleSection | seo_linter.py:57-64 | when the title can be measured, the title part of the whole report is exactly the title band's finding, whatever later checks add or raise |
| SeoProperties.TitleLengthFindings | seo_linter.py:57-64 | when the title can be measured, the title errors and warnings as functions of its length, and at most one title finding |
| SeoProperties.DescriptionSection | seo_linter.py:66-76 | when the title can be measured, the description part of the whole report is exactly the description band's finding |
| SeoProperties.DescLengthFindings | seo_linter.py:66-76 | when the title can be measured, the description errors and warnings as functions of its length, and at most one description finding |
| SeoProperties.SlugSection | seo_linter.py:78-85 | when the title and description can be measured, the slug errors are the pattern error followed by the length error, and the slug warnings are the length band's |
| SeoProperties.SlugCharsetFinding | seo_linter.py:79-81 | when the title and description can be measured, SLUG INVALID is reported exactly when `str(slug)` fails the pattern, even if measuring the slug afterwards raises |
| SeoProperties.SlugLengthFindings | seo_linter.py:82-85 | when the title and description can be measured: no length finding up to 75 characters of `str(slug)`, whatever the slug's type; above that, with `len(slug)` defined, a long-slug warning up to 100 and SLUG CRITICAL beyond, each carrying `len(slug)`, which equals the text's length for a string slug |
| SeoProperties.ReadErrorLast | seo_linter.py:87-88 | FILE READ ERROR appears exactly when the body raises, appears then once, and is the last error |
| SeoProperties.MissingTitle | seo_linter.py:52-64 | a post without a title gets both MISSING KEY 'title' and TITLE CRITICAL too short with 0 chars |
| SeoProperties.MissingDescription | seo_linter.py:52-74 | when the title can be measured, a post without a description gets both MISSING KEY 'description' and DESC CRITICAL empty |
| SeoProperties.MissingSlug | seo_linter.py:52-81 | when the title and description can be measured, a post without a slug gets both MISSING KEY 'slug' and SLUG INVALID for the empty slug |
| SeoProperties.EmptyMetadata | seo_linter.py:40-90 | an empty frontmatter yields the six MISSING KEY errors, then title too short, description empty and slug invalid, and no warnings |
| SeoProperties.CompliantPostPasses | seo_linter.py:40-90 | the sample post `CompliantPost` gets an empty report |
| SeoProperties.CompliantIffPasses | seo_linter.py:40-90 | a readable post gets an empty report if and only if it meets every rule (`Compliant`): all required keys present and truthy, a title of 10 to 60 and a description of 50 to 160 characters, and a slug of at most 75 characters that the pattern accepts |
| SeoProperties.CompliantPasses | seo_linter.py:40-90 | a post meeting every rule gets an empty report |
| SeoProperties.PassesCompliant | seo_linter.py:40-90 | a post with an empty report meets every rule |
| SeoProperties.MissingKeyErrorsEmpty | seo_linter.py:52-54 | no MISSING KEY error means every required key is present and truthy |
| SeoProperties.SlugPatternShape | seo_linter.py:80 | the pattern accepts exactly a non-empty word of `a-z`, `0-9` and `-`, optionally followed by one newline |
| SeoProperties.SlugRejectsUpperCaseAndSpace | seo_linter.py:80-81 | an upper-case letter or a space anywhere makes the slug invalid |
| SeoProperties.SlugAcceptedExamples | seo_linter.py:80 | `post-2` and `post-2` with a trailing newline pass the pattern |
| SeoProperties.SlugRejectedExamples | seo_linter.py:80 | the empty slug, a lone newline and a word with two trailing newlines fail the pattern |
| SeoRun.RunLinter | seo_linter.py:92-121 | the looped flag gives exit status `ExitStatus(listing)`, and the reports are `ReportedFiles` of the `.md` files |
| SeoRun.LintEntry | seo_linter.py:98-112 | one pass of the loop extends the reports and the flag from the first i `.md` files to the first i + 1 |
| SeoRun.MarkdownFilesMembers | seo_linter.py:96 | a file is linted exactly when it is in the listing and its name ends with `.md` |
| SeoRun.ReportedFilesMembers | seo_linter.py:98-112 | a report is printed under a name exactly when a linted file of that name has that report and it is not empty |
| SeoRun.AnyFailingMembers | seo_linter.py:106-108 | the flag, computed over the files, holds exactly when some linted file has an error |
| SeoRun.ExitStatusByFiles | seo_linter.py:96-121 | the exit status depends only on the `.md` files: 1 when some has an error, else 0 |
| SeoRun.ReportsShowFailures | seo_linter.py:102-108 | some printed report lists an error exactly when some linted file has one |
| SeoRun.ExitStatusByReports | seo_linter.py:102-121 | the exit status is 1 exactly when a printed report lists an error |
| SeoRun.RaisingFileFails | seo_linter.py:87-118 | a `.md` file whose reading raises fails the whole check |
| SeoRun.NoPostsPass | seo_linter.py:96-121 | a listing without `.md` files prints no report and exits with 0 |
| SeoRun.SampleRun | seo_linter.py:92-121 | with a note, a compliant post and an empty post, only the empty post is reported and the check fails |
| Blog.GetPosts | app.py:21-32 | no posts when the directory is missing; otherwise the slugs of the `.md` files in listing order |
| Blog.PostNamesMembers | app.py:27-29 | a slug is listed exactly when the listing holds that slug plus `.md` |
| Blog.PostNamesSuffixed | app.py:27-29 | every listed slug names a file of the listing |
| Blog.ImageUrl | app.py:66 | there is an image URL exactly when the frontmatter has a truthy `image` |
| Blog.ImageUrlParts | app.py:66 | when there is an image URL, it is the endpoint, a slash and `str(image)`; an unset endpoint starts it with `None/` |
| Blog.PostDetailMetadata | app.py:63-67 | the page metadata has the frontmatter's keys plus `image`, with every other value unchanged |
| Blog.PostDetail | app.py:53-70 | a 404 exactly when the post file is missing; otherwise that file's frontmatter with `image` rewritten as `PostDetailMetadata` gives it |
| Blog.Lastmod | app.py:89 | `updated_at` when present, otherwise `created_at` when present, otherwise `None` |
| Blog.Sitemap | app.py:74-93 | the looped entries are the ones `SitemapEntries` specifies for the listed posts |
| Blog.SitemapEntriesMembers | app.py:78-93 | an entry is in the sitemap exactly when it comes from a listed post whose file exists |
| Blog.SitemapComplete | app.py:78-93 | when every listed post's file exists, there is one entry per post |
| Blog.ImagesAgree | app.py:85-87 | the sitemap and the post page compute the same image URL, or both give `None` |
| Blog.SplitJoin | app.py:130 | splitting the newline-joined lines of a non-empty list gives the lines back when no line holds a newline |
| Blog.JoinEnd | app.py:130 | when the last line is not empty, the joined body ends with that line's last character, so the join adds no trailing newline |
| Blog.SitemapUrl | app.py:103 | a set `SITE_URL` gives that URL followed by `/sitemap.xml`; an unset one gives `None/sitemap.xml` |
| Blog.Robots | app.py:100-130 | the body is the join of the lines for the environment; it is non-empty and does not end with a newline; when the site URL holds no newline, it splits back into those lines |
| Blog.RobotsLinesRecovered | app.py:107-130 | the robots lines can be read back from the body when the site URL holds no newline |
| Blog.DevelopmentBody | app.py:105-130 | outside production the body is `User-agent: *` then `Disallow: /`; an unset `FLASK_ENV` counts as development |
| Blog.CrawlingOnlyInProduction | app.py:109-128 | when the site URL holds no newline, `Allow: /` only in production, `Disallow: /` only outside it; the last production line points to the sitemap |

## Left out

- File I/O is not modelled as an effect. This covers opening files, `os.listdir` and `os.path.exists`. The listing is an input sequence, and whether the posts directory exists is a boolean. The blog's post files are a map from file name to metadata. The model does not tie that map to the listing, because the source checks existence separately.
- The linter with no posts directory: there `os.listdir` raises and `main` crashes. This is I/O.
- YAML parsing is not modelled: the parsed metadata arrives as given, or as the failure `Unreadable`. Markdown rendering is also left out, and with it the index route, which only renders posts.
- The linter keeps the text of `str(e)` in FILE READ ERROR. The model records the fact of the failure, not the exception text.
- Messages are modelled by kind and by the numbers they carry, not as formatted text. Printing, ANSI colours, emoji and logging are also left out. So is `sys.exit`, which becomes the returned status.
- Flask plumbing is left out: routing, `abort`, templates, response headers and the 3600-second cache. This includes how a slug in a URL maps onto a file path.
- `len` on collections is modelled only as a size. Other Python types act only through truthiness, `str` and whether `len` raises.
- The blog does not catch exceptions when it opens a post file in `post_detail` or `sitemap`. The model has no failure path there: a stored file always parses.
