# Suno and Udio extractors of yt-dlp, modelled in Dafny

yt-dlp has four extractors for two AI music sites:

- `SunoIE` reads one song from `suno.com` / `suno.ai`. It rejects a song the page marks as
  pending. Otherwise it returns the song's id, Open Graph title, description and thumbnail, a
  duration read from the JSON embedded in the page, and two candidate formats.
- `SunoPlaylistIE` turns each `data-clip-id="…"` attribute of a playlist page into a deferred
  song reference.
- `UdioIE` reads one song from `udio.com`. The id is either 36 characters of the UUID alphabet
  or 22 alphanumeric characters.
- `UdioPlaylistIE` cuts the `song_list` array out of the page's escaped JSON. Each quoted token
  inside it becomes a deferred song reference.

The model is functional:

- Each extractor's URL pattern (`_VALID_URL`) is a parser with a spelling function. A pair of
  lemmas says exactly which URLs the parser accepts.
- The page text is an input.
- The page patterns are values of a small `Pattern` datatype. `re.search` and `re.findall` over
  those patterns are written out as scanners, and lemmas prove them leftmost and
  non-overlapping.
- `_real_extract` is a function from URL, page and host lookups to a `Result`. Its contract
  lists every error case with an if-and-only-if.

Modules:

| module | file | contents |
|---|---|---|
| `Wrappers` | wrappers.dfy | `Option`, `Result` |
| `Text` | text.dfy | character classes, greedy and fixed-width runs, `int()` of a digit run |
| `Patterns` | patterns.dfy | the page patterns, anchored matching, `re.search`, `re.findall` |
| `UrlShape` | url_shape.dfy | scheme, literal and optional literal at the start of a URL |
| `Info` | info.dfy | info dictionaries, deferred references, failures, the base class's lookups |
| `InlineJson` | inline_json.dfy | the `duration` and `is_video_pending` fields of the embedded JSON |
| `Suno` | suno.dfy | `SunoIE`, `SunoPlaylistIE` |
| `Udio` | udio.dfy | `UdioIE`, `UdioPlaylistIE` |

## Model

| member | source | states |
|---|---|---|
| Text.TakeWhile | yt_dlp/extractor/udio.py:40 | The greedy run `[0-9a-zA-Z-]+` (and `\s*`, `\w+`, `\d+`) is a prefix of the input made only of class characters, and it is followed by the end of the input or by a character outside the class. |
| Text.TakeWhileStops | yt_dlp/extractor/udio.py:40 | A class run followed by a non-class character is read back whole, so the greedy run is the unique such prefix. |
| Text.Decimal | yt_dlp/extractor/suno.py:40 | A number's decimal spelling is a non-empty run of digits, so `\d+` can match it. |
| Text.DecimalValue | yt_dlp/extractor/suno.py:40 | `int()` of a run of `k` digits is below `10^k`. Its inverse on the shortest spelling is `Text.DecimalRoundTrip`. |
| Text.DecimalRoundTrip | yt_dlp/extractor/suno.py:40 | `int()` applied to a number's decimal spelling gives the number back. |
| Text.LeadingZeroIgnored | yt_dlp/extractor/suno.py:40 | A leading zero does not change the value `int()` reads from a digit run. |
| UrlShape.Lit | yt_dlp/extractor/suno.py:47 | A literal matches exactly when it is a prefix, and the text after it is what remains. |
| UrlShape.Opt | yt_dlp/extractor/suno.py:47 | The greedy `(?:www\.)?` is taken exactly when the literal is present, and the input is the taken part followed by the remainder. |
| UrlShape.Scheme | yt_dlp/extractor/suno.py:47 | `https?://` splits the URL into a scheme spelling and the rest. |
| UrlShape.SchemeFound | yt_dlp/extractor/suno.py:47 | Each scheme spelling is recognised with the right security flag and the exact remainder. |
| UrlShape.OptSkipped | yt_dlp/extractor/suno.py:12 | An absent optional literal consumes nothing when the next character differs from the literal's first. |
| Patterns.UpTo | yt_dlp/extractor/udio.py:55 | The lazy `.*?` before a closing literal stops at the first occurrence of the closing literal. The text it spans holds no newline, and it fails when a newline or the end of the input comes first. |
| Patterns.MatchAt | yt_dlp/extractor/suno.py:66 | An anchored match consumes at least one character and at most the input. Its capture has the pattern's shape. Nothing matches unless the pattern's first character is present. That the pattern's literals surround the capture is `Patterns.MatchFramed`. |
| Patterns.MatchFramed | yt_dlp/extractor/suno.py:66 | Wherever any of the four patterns matches, the input starts with the pattern's literals around the capture, and the match ends right after the closing literal. For a keyed run, the key and white space come before the capture and no class character follows it. |
| Patterns.MatchKeyedRun | yt_dlp/extractor/suno.py:30 | `\\"key\\":\s*(cls+)` captures a non-empty run of the class. Where the match sits in the input is `Patterns.KeyedRunSound`. |
| Patterns.KeyedRunSound | yt_dlp/extractor/suno.py:30 | A keyed-run match spans exactly the escaped key, some white space and the capture. The capture is not followed by another character of its class, so the run is maximal. |
| Patterns.MatchKeyedList | yt_dlp/extractor/udio.py:55 | `\\"song_list\\":\[(.*?)\]` matches only where the input starts with the escaped key, `[`, the capture and `]`, and the match ends after that `]`. The capture holds no `]` and no newline. |
| Patterns.MatchAttribute | yt_dlp/extractor/suno.py:66 | `data\-clip\-id="([0-9a-fA-F-]{36})"` matches only where the input starts with `data-clip-id="`, the capture and `"`, and the match ends after that quote. The capture is exactly 36 class characters. |
| Patterns.MatchQuoted | yt_dlp/extractor/udio.py:63 | `\\"(.*?)\\"` matches only where the input starts with `\"`, the capture and `\"`, and the match ends after the closing pair. The capture holds no newline and no backslash-quote pair. |
| Patterns.Search | yt_dlp/extractor/suno.py:30 | Whatever `re.search` captures has the pattern's shape. |
| Patterns.Findall | yt_dlp/extractor/suno.py:66 | Every capture `re.findall` returns has the pattern's shape, and it returns no more captures than the input has characters. |
| Patterns.SearchLeftmost | yt_dlp/extractor/suno.py:30 | `re.search` reports the capture of the match at the leftmost position where the pattern matches. |
| Patterns.SearchAfter | yt_dlp/extractor/suno.py:30 | When nothing matches before the end of a prefix, `re.search` reports the capture of the match that starts right after the prefix. |
| Patterns.SearchNoneIff | yt_dlp/extractor/suno.py:40 | `re.search` finds nothing exactly when the pattern matches at no position. |
| Patterns.SearchSound | yt_dlp/extractor/udio.py:55 | What `re.search` reports is the capture of a match at some position of the text. |
| Patterns.FindallSound | yt_dlp/extractor/suno.py:66 | Every capture `re.findall` returns is the capture of a match at some position of the text. |
| Patterns.FindallLeftmost | yt_dlp/extractor/suno.py:66 | `re.findall` begins with the capture of the leftmost match and resumes right after that match's end. |
| Patterns.FindallFrom | yt_dlp/extractor/suno.py:66 | The same, for a scan that starts at an inner position. |
| Patterns.FindallEmptyIff | yt_dlp/extractor/udio.py:63 | `re.findall` returns nothing exactly when the pattern matches at no position. |
| Patterns.SearchIsFirstFound | yt_dlp/extractor/udio.py:55 | The capture `re.search` reports is the first capture `re.findall` returns, and there is none when the list is empty. |
| Patterns.SkipPlain | yt_dlp/extractor/suno.py:66 | Text without the pattern's first character changes neither scan's result. |
| Patterns.UpToStopsAt | yt_dlp/extractor/udio.py:55 | The lazy run before `]` yields exactly the text up to the first `]`. |
| Patterns.UpToStopsAtEscQuote | yt_dlp/extractor/udio.py:63 | The lazy run before `\"` yields exactly the text up to the first backslash-quote pair. |
| Patterns.QuotedAt | yt_dlp/extractor/udio.py:63 | A quoted token with no newline and no backslash-quote pair is matched whole, and the match spans its four quote characters as well. |
| Patterns.QuotedTokensAvoid | yt_dlp/extractor/udio.py:63 | A character missing from the scanned text is missing from every quoted token found in it. |
| InlineJson.KeyedRunFound | yt_dlp/extractor/suno.py:30 | When the key is the leftmost place where the pattern matches, the search returns the whole run that follows the key and any white space. |
| InlineJson.KeyedRunAt | yt_dlp/extractor/suno.py:30 | A match anchored at the key captures exactly the run after the white space, and it ends where that run ends. |
| InlineJson.SpaceThenRun | yt_dlp/extractor/suno.py:40 | After the key, `\s*` takes exactly the white space, and the class run then takes exactly the token. |
| InlineJson.Duration | yt_dlp/extractor/suno.py:40 | The duration is missing exactly when the duration pattern matches at no position of the page. |
| InlineJson.DurationFound | yt_dlp/extractor/suno.py:40 | A page whose leftmost duration match is `\"duration\": <n>` yields the duration `n`. Any text may come before it, including other escaped keys, as long as the duration pattern does not match there. |
| InlineJson.PendingIffTrue | yt_dlp/extractor/suno.py:30 | When the pending key is the leftmost place where the pending pattern matches, the page is pending exactly when the word after the key is `true`. Other words, such as `false` or `trueish`, are not pending. Any text without a match may come before the key. |
| InlineJson.IsPending | yt_dlp/extractor/suno.py:29-33 | A page can be pending only when it carries the pending key at some position. A page without the key is therefore not pending, and no error arises from the missing key. |
| Suno.ParseSongUrl | yt_dlp/extractor/suno.py:12 | An accepted URL has a 36-character UUID-shaped id, and it is the spelling of its parsed parts followed by some tail. |
| Suno.SongUrlIff | yt_dlp/extractor/suno.py:12 | A URL parses to given parts exactly when the id is UUID-shaped and the URL spells those parts followed by any tail. Every combination of `www.`, `app.`, `com`/`ai` and `song`/`embed` is accepted. |
| Suno.SongId | yt_dlp/extractor/suno.py:26 | `_match_id` yields only UUID-shaped ids. |
| Suno.SongIdIff | yt_dlp/extractor/suno.py:26 | `_match_id` yields a given id exactly when the id is UUID-shaped and the URL spells some song URL with that id, followed by any tail. |
| Suno.ParsePlaylistUrl | yt_dlp/extractor/suno.py:47 | An accepted playlist URL has a UUID-shaped id and spells its parsed parts followed by some tail. |
| Suno.PlaylistUrlIff | yt_dlp/extractor/suno.py:47 | A URL parses to given playlist parts exactly when the id is UUID-shaped and the URL spells them. |
| Suno.PlaylistId | yt_dlp/extractor/suno.py:58 | `_match_id` yields only UUID-shaped playlist ids. |
| Suno.PlaylistIdIff | yt_dlp/extractor/suno.py:58 | `_match_id` yields a given id exactly when the id is UUID-shaped and the URL spells some playlist URL with that id. |
| Suno.PlaylistHostIsSunoCom | yt_dlp/extractor/suno.py:47 | Playlist URLs on `suno.ai` or on the `app.` subdomain are rejected. |
| Suno.ExtractSong | yt_dlp/extractor/suno.py:25-42 | The outcome is one of four cases, each characterised by an if-and-only-if: a URL that does not match, a pending page (`Video is pending and not yet available`), a missing duration, or success. The pending check comes before the duration. A success carries the URL's id, the page's duration, the og title, description and image, and the `og:audio` then `og:video:url` formats. |
| Suno.PendingPageAborts | yt_dlp/extractor/suno.py:29-31 | A page whose leftmost pending match is the key followed by `true` yields the expected error. This holds whatever the page holds before the key (as long as the pattern does not match there) and whatever it holds after the word. |
| Suno.AbsentPendingKeyTolerated | yt_dlp/extractor/suno.py:32-33 | A page without the pending key is extracted when it has a duration, with the URL's id and that duration. |
| Suno.ExtractPlaylist | yt_dlp/extractor/suno.py:57-73 | It fails only on a URL that does not match. On success it has the URL's id, the og title and no description, and exactly one `SunoIE` song reference per clip attribute found, in page order. |
| Suno.ClipsFoundInOrder | yt_dlp/extractor/suno.py:66 | Scanning a page that lists clip attributes returns those ids in the same count and order. |
| Suno.PlaylistOfClips | yt_dlp/extractor/suno.py:61-67 | A playlist page listing given clip attributes yields one `SunoIE` entry per clip, in the same order. |
| Suno.DuplicateClipsKept | yt_dlp/extractor/suno.py:61-67 | A clip listed twice becomes two identical entries: entries are not de-duplicated. |
| Suno.EntryUrlRoundTrip | yt_dlp/extractor/suno.py:63 | A playlist entry's `https://suno.com/song/<id>` URL is accepted by `SunoIE` with the same id. |
| Suno.ClipFoundInPage | yt_dlp/extractor/suno.py:66 | Every clip id `re.findall` returns sits inside a complete `data-clip-id="<id>"` attribute of the page. |
| Suno.PlaylistEntriesFromAttributes | yt_dlp/extractor/suno.py:61-67 | Every entry of an extracted playlist comes from a complete `data-clip-id="<id>"` attribute that the page spells out. |
| Suno.PlaylistEntriesResolve | yt_dlp/extractor/suno.py:61-67 | Every entry of an extracted playlist is bound to `SunoIE` and resolves to its own id. |
| Udio.SongIdAt | yt_dlp/extractor/udio.py:8 | The id alternation yields a prefix of the input that is either UUID-shaped or 22 alphanumerics. The 22-character branch is used only when the 36-character branch fails. |
| Udio.ParseSongUrl | yt_dlp/extractor/udio.py:8 | An accepted song URL spells its parsed parts followed by a tail, and the alternation picks exactly that id from the id plus the tail. |
| Udio.SongUrlIff | yt_dlp/extractor/udio.py:8 | A URL parses to given parts exactly when it spells them followed by a tail and the id is either UUID-shaped or a short id that the 36-character branch does not pre-empt. |
| Udio.SongId | yt_dlp/extractor/udio.py:22 | `_match_id` yields an id of one of the two shapes: 36 UUID-alphabet characters or 22 alphanumerics. |
| Udio.SongIdIff | yt_dlp/extractor/udio.py:22 | `_match_id` yields a given id exactly when the URL spells some song URL with that id and the alternation picks exactly that id from the id and the tail. |
| Udio.ShortIdRecognised | yt_dlp/extractor/udio.py:8 | A 22-character id is recognised when it ends the URL or is followed by a character outside `[0-9a-fA-F-]`. |
| Udio.ParsePlaylistUrl | yt_dlp/extractor/udio.py:40 | An accepted playlist URL has a non-empty id of `[0-9a-zA-Z-]`, and the text after it does not continue the id. |
| Udio.PlaylistUrlIff | yt_dlp/extractor/udio.py:40 | A URL parses to given playlist parts exactly when it spells them with a non-empty id followed by text that does not extend the id. |
| Udio.PlaylistId | yt_dlp/extractor/udio.py:52 | `_match_id` yields a non-empty id of `[0-9a-zA-Z-]`. |
| Udio.PlaylistIdIff | yt_dlp/extractor/udio.py:52 | `_match_id` yields a given id exactly when the id is a non-empty `[0-9a-zA-Z-]` run, the URL spells a playlist URL with it, and the text after it does not extend it. |
| Udio.ExtractSong | yt_dlp/extractor/udio.py:21-35 | The outcome is characterised by if-and-only-ifs: a URL that does not match, a missing duration, or success. There is no pending check. A success carries the URL's id, the duration, the og title, description and image, and the `og:audio:url` then `og:video:url` formats. |
| Udio.SongWithDuration | yt_dlp/extractor/udio.py:30 | A matching URL and a page whose leftmost duration match is `\"duration\": <n>` give a record with the URL's id, duration `n` and two formats. |
| Udio.ExtractPlaylist | yt_dlp/extractor/udio.py:51-71 | It succeeds exactly when the URL matches and the page holds the song list. It fails with no match on any other URL, and with `match_entries` not found on a page without the song list. On success it has the URL's id, the og title and description, and one `UdioIE` reference per quoted token in the list fragment, in order. |
| Udio.EntryIdsShape | yt_dlp/extractor/udio.py:57-64 | Every entry is bound to `UdioIE`, its URL is `https://udio.com/songs/<id>`, and its id holds no `]`, no newline and no backslash-quote pair. |
| Udio.SongListInPage | yt_dlp/extractor/udio.py:55 | The fragment `re.search` reports sits inside a complete `\"song_list\":[<fragment>]` of the page. |
| Udio.QuotedFoundIn | yt_dlp/extractor/udio.py:63 | Every token `re.findall` returns sits between two escaped quotes of the fragment. |
| Udio.PlaylistEntriesFromQuotes | yt_dlp/extractor/udio.py:55-64 | A playlist's entries come from a `\"song_list\":[...]` array the page spells out, and each entry's id is a token that the array encloses in escaped quotes. |
| Udio.EntryUrlRoundTripIff | yt_dlp/extractor/udio.py:59 | An entry's URL is accepted by `UdioIE` with the entry's own id exactly when the token has one of the two id shapes. Other tokens are passed on unchecked. |
| Udio.QuotedItemFirst | yt_dlp/extractor/udio.py:63 | The first quoted item of a list is read whole, and the scan resumes right after it. |
| Udio.QuotedListRoundTrip | yt_dlp/extractor/udio.py:63 | Scanning a comma-separated list of quoted tokens returns the tokens in the same count and order, duplicates included. |
| Udio.SongListFound | yt_dlp/extractor/udio.py:55 | When the `song_list` key is the leftmost place where the pattern matches, the fragment is the text between the key and the first `]` after it. |
| Udio.SongListAt | yt_dlp/extractor/udio.py:55 | The song list pattern anchored at the key captures the text up to the first `]` and ends just after that `]`. |
| Udio.PlaylistEntriesFromSongList | yt_dlp/extractor/udio.py:55-64 | A playlist page whose leftmost song list holds given tokens yields one entry per token, in order, duplicates kept. |

## Left out

- Downloading the page (`_download_webpage`) is network I/O. The page text is a parameter of
  every extraction function.
- The base class's `_og_search_title`, `_og_search_description`, `_og_search_thumbnail` and
  `_html_search_meta` live in `yt_dlp/extractor/common.py`, which is not part of this model. They
  are uninterpreted functions of the `Host` parameter that return an optional string. This makes
  them non-fatal. If the host framework raises on a missing Open Graph title, that failure is
  not modelled.
- `_html_search_regex` passes its capture through `clean_html`. That step is not modelled: it
  leaves the `\d+` and `\w+` tokens read here unchanged.
- `\w`, `\d` and `\s` are taken in their ASCII reading. Python's `re` on `str` also admits other
  Unicode letters, digits and white space, and `int()` accepts other Unicode decimal digits.
- Only the four page patterns these extractors use are modelled, not general regular
  expressions.
- `_match_id` is modelled as `re.match`: a prefix match, with anything allowed after the id. It
  is case-sensitive: scheme and host are matched exactly as the patterns spell them, because
  the patterns are compiled without flags.
- Extractor registration, `IE_NAME`, dispatch by URL and the `_TESTS` fixtures are not modelled.
  The deferred references are records (`UrlResult`) that are never resolved.
- The `ExtractorError` and `RegexNotFoundError` class hierarchy is reduced to the `Failure`
  datatype. A failing pattern search is `RegexNotFound(<field name>)`, and the user-facing
  error is `Expected(<message>)`.
- Repeating an extraction gives the same result, because every extraction is a pure function of
  its inputs. No lemma states this separately.
