# GitHub Archive push leaderboard, modelled in Dafny

`gh_repo_stats.rb` is the script modelled here. It ranks GitHub repositories by how many
events of one kind, by default `PushEvent`, the GitHub Archive recorded for them in a
time window. It goes through these steps:

- It checks the options: the window must not end before it begins, and the result count
  must be positive.
- It expands the window into one archive URL per day. Every URL uses the hour of the
  window's start.
- It fetches and decodes each archive and keeps the records that pass `record_valid?`:
  - the record has the requested type;
  - it has a repository with a URL and a `pushed_at`;
  - the `pushed_at` lies inside the window, with both ends included.
- It takes a key from each kept record by removing the `http(s)://github.com/` host from
  the URL. It counts the keys in a hash.
- It sorts the hash's rows by count, largest first.
- It prints at most `count` lines of the form `owner/repo: N events`.

The model has these modules:

- `Wrappers`: `Option` and `Result`.
- `Text`: decimal rendering, `%d` and `%02d`.
- `Calendar`: the proleptic Gregorian calendar over day numbers counted from 1970-01-01. The
  conversion goes both ways, and the model proves that each direction inverts the other and
  that counting one day forward is the same as moving to the next date.
- `Archive`: `github_uri_list`. It is a method with the source's `until` loop, proved
  against the function `ArchiveUrls`.
- `Records`: decoded records and `record_valid?`.
- `RepoKey`: the key extraction. It is modelled as the code has it: a global `gsub` whose
  `.` is a wildcard.
- `Aggregation`: the hash `events`. It is a class with the hash's insertion order and its
  counts, and its methods update those fields in place. A ghost history of the accepted
  keys underlies its invariant.
- `Ranking`: the sort and `display_results`. The second is a method with the source's loop.
- `Pipeline`: the validation, the scan loop and the whole run. `Run` is proved against the
  functional specification `Report`.

Instants are whole seconds on one timeline. `DateTime + 1` adds 86400 seconds.

## Model

| member | source | states |
|---|---|---|
| Archive.UriList | gh_repo_stats.rb:8-18 | The loop's list is exactly `ArchiveUrls(start, end)`: the URL of every day step from the start instant while the step does not pass the end instant. |
| Archive.WindowShape | gh_repo_stats.rb:9-17 | The list is empty exactly when the end comes before the start. Otherwise the first address is the start instant's own. A window shorter than one day gives exactly one address. There is one URL per day step. |
| Archive.DayStepsAt | gh_repo_stats.rb:11-14 | Step i lies i days after the start, and it is not after the end. |
| Archive.DayStepsComplete | gh_repo_stats.rb:11 | The step after the last one is past the end, so no day step inside the window is missed. |
| Archive.DayStepsLength | gh_repo_stats.rb:11-14 | A window covering n day steps, and no more, yields exactly n instants. |
| Archive.AddressesKeepHour | gh_repo_stats.rb:12-14 | Every address has the hour of the start instant. |
| Archive.AddressesConsecutive | gh_repo_stats.rb:14 | Each address's date is the calendar successor of the one before it. |
| Archive.AddressesDistinct | gh_repo_stats.rb:11-14 | No address occurs twice in the list. |
| Archive.UrlInjective | gh_repo_stats.rb:12-13 | Two valid addresses with the same URL are the same address: the year, the zero-padded month and day and the hour can be read back from the dashes. |
| Archive.KnownUrl | gh_repo_stats.rb:12-13 | The instant of 2023-01-02 at 05:00 has the URL `http://data.githubarchive.org/2023-01-02-5.json.gz`: the month and day are padded to two digits, the hour is not. |
| Archive.ArchiveUrlsDistinct | gh_repo_stats.rb:8-18 | No URL occurs twice in the list, so no archive is fetched and counted twice. |
| Archive.DayStepsIncreasing | gh_repo_stats.rb:11-14 | The visited instants strictly increase. |
| Calendar.AddOneDay | gh_repo_stats.rb:14 | Adding one day to an instant keeps its hour and moves its date to the next calendar date. |
| Calendar.CivilFromDaysNext | gh_repo_stats.rb:14 | The date of day number z + 1 is the next date after the date of day z, across month, year and leap-day boundaries. |
| Calendar.CivilFromDaysInverse | gh_repo_stats.rb:12-13 | Turning a day number into a date and back gives the day number back. |
| Calendar.DaysFromCivilInverse | gh_repo_stats.rb:12-13 | Turning a valid date into a day number and back gives the date back. |
| Calendar.CivilFromDaysInjective | gh_repo_stats.rb:12-13 | Distinct day numbers have distinct dates. |
| Calendar.DaysFromCivilNext | gh_repo_stats.rb:14 | The next date's day number is one more than the current date's. |
| Calendar.YearStartFormula | gh_repo_stats.rb:12-14 | From 1970 on, January 1 of year y is 365 days per year passed plus one per Gregorian leap year passed. |
| Calendar.LeapDayNumber | gh_repo_stats.rb:12-13 | The leap day 2000-02-29 is a valid date, 11016 days after 1970-01-01. |
| Calendar.NewYearNumber | gh_repo_stats.rb:12-13 | 2023-01-02 is 19359 days after 1970-01-01. |
| Text.NatToStringValue | gh_repo_stats.rb:12-13 | The decimal digits printed for n read back as n. |
| Text.NatToStringInjective | gh_repo_stats.rb:12-13 | Distinct numbers print differently. |
| Text.NatToString | gh_repo_stats.rb:12-13 | The rendering is a non-empty string of digits with no leading zero. It is a single digit exactly when n < 10. |
| Text.IntToString | gh_repo_stats.rb:12-13 | `%d`: a non-negative number prints as its digits; a negative one prints as a minus sign and then the digits of its magnitude. |
| Text.IntToStringInjective | gh_repo_stats.rb:12-13 | Distinct integers, of either sign, print differently. |
| Text.Pad2 | gh_repo_stats.rb:12-13 | `%02d` of a number between 0 and 99 is two digits that read back as the number. |
| Records.RecordValid | gh_repo_stats.rb:21-29 | A record of another type is rejected, whatever else it holds. A record missing its repository, `url` or `pushed_at` is rejected. The filter raises exactly when such a record's `pushed_at` does not parse, and the error carries that text. Otherwise the record is accepted exactly when it is of the requested type, complete, and pushed inside the window. |
| Records.WindowBoundsInclusive | gh_repo_stats.rb:27 | A push at either bound of the window is accepted. A push before `after` or after `before` is rejected. |
| RepoKey.StripHost | gh_repo_stats.rb:84 | `gsub` of the pattern with the empty string never makes the URL longer. The lemmas below say what it removes and what it keeps. |
| RepoKey.StripHostShortens | gh_repo_stats.rb:84 | The key is exactly as long as the URL when the pattern occurs nowhere in the URL, and shorter otherwise. |
| RepoKey.StripHostPrefix | gh_repo_stats.rb:84 | Both `http://github.com/` and `https://github.com/` followed by a path with no further match give the path itself. |
| RepoKey.StripHostWildcard | gh_repo_stats.rb:84 | Because the pattern's dot is a wildcard, any character but a newline in the dot's place is removed in the same way. |
| RepoKey.StripHostNoPattern | gh_repo_stats.rb:84 | A URL with no match of the pattern is left unchanged. |
| RepoKey.StripHostUnanchored | gh_repo_stats.rb:84 | The removal is not anchored at the start: a host pattern after text that contains no `h` is removed too. |
| RepoKey.StripHostKeepsPrefix | gh_repo_stats.rb:84 | Text containing no `h` is kept as it is, in front of the key of what follows. |
| RepoKey.HostMatch | gh_repo_stats.rb:84 | A match at the front has the length of the `http` form or the `https` form, or there is none, and it never runs past the string. |
| Aggregation.Incremented | gh_repo_stats.rb:85-89 | Incrementing adds the key to the hash's key set. A present key goes up by one and a new key starts at 1. Every other entry is unchanged. |
| Aggregation.TallyCounts | gh_repo_stats.rb:85-89 | After counting a sequence of keys, the hash holds exactly the keys that occurred. Each key's count is its number of occurrences, and that count is at least 1. |
| Aggregation.FirstOccurrencesFacts | gh_repo_stats.rb:73-89 | The hash's key order holds each counted key exactly once, and no other key. |
| Aggregation.Entries | gh_repo_stats.rb:85-89 | The hash's rows follow the order in which keys were first inserted. Each row's count is its key's number of occurrences, and it is at least 1. |
| Aggregation.EntriesExact | gh_repo_stats.rb:85-89 | A key has a row exactly when it was counted, and no key has two rows. |
| Aggregation.SeeOneMore | gh_repo_stats.rb:85-89 | Counting one more key is the hash increment. The key order grows only when the key is new. |
| Aggregation.EntriesOfRun | gh_repo_stats.rb:85-89 | Three occurrences of one key and one of another give the rows (a, 3) and then (b, 1). |
| Aggregation.EventCounts.constructor | gh_repo_stats.rb:73 | A new hash is empty and consistent. |
| Aggregation.EventCounts.Increment | gh_repo_stats.rb:85-89 | The hash's counts become the incremented map. A key is appended to the hash's order only when it was absent. The hash stays consistent with the history of counted keys. |
| Aggregation.EventCounts.Rows | gh_repo_stats.rb:103 | The hash viewed as an array of `[key, count]` pairs is the tally of the keys counted so far, in insertion order. |
| Ranking.InsertByCount | gh_repo_stats.rb:103 | Inserting a row into rows sorted by count, largest first, keeps them sorted. The rows form the same multiset plus the new row. |
| Ranking.SortByCount | gh_repo_stats.rb:103 | The sorted rows are ordered by count, largest first. They are a permutation of the input rows. |
| Ranking.RankedRows | gh_repo_stats.rb:103 | Every ranked row is a counted key with its exact number of occurrences. |
| Ranking.RankedKeysDistinct | gh_repo_stats.rb:103 | No repository appears twice among the ranked rows. |
| Ranking.DisplayResults | gh_repo_stats.rb:94-101 | The loop prints `min(limit, #rows)` lines, and none for a negative limit. Line i is row i's key, `: `, its count, and ` events`. |
| Ranking.DisplayedAreTop | gh_repo_stats.rb:96-97 | Among rows sorted by count, no row left out of the printed lines has a higher count than a printed one. |
| Pipeline.ValidateOptions | gh_repo_stats.rb:61-70 | The options pass exactly when `after <= before` and `count >= 1`. An inverted window is reported first, then a count below 1. |
| Pipeline.RejectedBeforeFetch | gh_repo_stats.rb:61-70 | A rejected run prints only its error message and fetches nothing, whatever the archives hold. |
| Pipeline.GatherLog | gh_repo_stats.rb:75-92 | The scan prints one `fetching uri:` line per archive, in order. It prints all of them when it succeeds. When a fetch fails, or an archive's JSON is malformed, that archive's URL is the last one printed. |
| Pipeline.GatherStops | gh_repo_stats.rb:75-92 | Once an archive fails, the archives after it change nothing. |
| Pipeline.KeysOfStops | gh_repo_stats.rb:82-91 | Once a record raises, the records after it change nothing. |
| Pipeline.KeysOfJudged | gh_repo_stats.rb:82-91 | A record the filter judges without raising adds its key when accepted, and nothing when rejected. |
| Pipeline.KeysOfFails | gh_repo_stats.rb:82-91 | A record whose `pushed_at` does not parse ends its archive with that error, and the keys counted before it are kept. |
| Pipeline.AbortedShowsNoCounts | gh_repo_stats.rb:75-104 | A run that aborts prints only the fetch lines it reached, and no counts. |
| Pipeline.RankedOutput | gh_repo_stats.rb:94-104 | The printed lines number `min(count, #keys)`. They are the lines of a permutation of the hash's rows. Every row has its exact count and appears once. No row left out counts more than a printed one. |
| Pipeline.RankedExample | gh_repo_stats.rb:94-104 | The keys `a/b` three times and `a/c` once print `a/b: 3 events` and then `a/c: 1 events`. |
| Pipeline.KeysOfPush | gh_repo_stats.rb:82-89 | A push of the requested type, at any instant inside the window, to `https://github.com/` plus a path shorter than the pattern, adds exactly that path to the counted keys. |
| Pipeline.KeysOfPushes | gh_repo_stats.rb:82-89 | Three such pushes to path p at one instant inside the window, and one to path q at another, give the keys p, p, p, q and no failure. |
| Pipeline.LinesOfRun | gh_repo_stats.rb:94-103 | The keys p three times and q once, for distinct p and q and room for two lines, print `p: 3 events` and then `q: 1 events`. |
| Pipeline.SingleArchive | gh_repo_stats.rb:8-18 | A window shorter than one day has exactly one archive, the start instant's. |
| Pipeline.ReportOfPushes | gh_repo_stats.rb:61-104 | A window shorter than one day whose single archive holds three pushes to p and one to q, inside the window, prints its fetch line and then the ranked lines of those keys, and completes. |
| Pipeline.PushExample | gh_repo_stats.rb:61-104 | End to end, for such a window and archive and distinct p and q: the run prints `fetching uri:` with the archive's URL, then `p: 3 events`, then `q: 1 events`. |
| Pipeline.ScanRecord | gh_repo_stats.rb:82-91 | An accepted record increments its key's count. A rejected record changes nothing. A record whose `pushed_at` does not parse raises and changes nothing. |
| Pipeline.ScanArchive | gh_repo_stats.rb:82-91 | Scanning an archive counts the keys of its accepted records, in order. It stops at the first record that raises, and then the hash holds the keys of the records before it. |
| Pipeline.ScanUri | gh_repo_stats.rb:77-91 | One archive adds the keys of its accepted records to the hash. It fails when the download fails, at the first record that raises, or when its JSON turns out malformed after the records before the bad bytes. On each failure the hash holds what was counted before it. |
| Pipeline.ScanAll | gh_repo_stats.rb:75-92 | The scan loop's printed lines, its counted keys and its failure, if any, are those of `Gather` over the URL list, on success and on failure alike. |
| Pipeline.Run | gh_repo_stats.rb:61-104 | The whole script's output and outcome are those of the specification `Report`: validation, the URL list, the scan, the sort and the display. |

## Left out

- Network access (`open`), gzip (`Zlib::GzipReader`) and JSON decoding (`Yajl::Parser`) are
  I/O and foreign libraries. They are one parameter, `fetch`. It gives `None` when the
  download or the gunzip fails, which aborts the run before any record of that archive.
  Otherwise it gives the records the streaming parser yields and whether the parser then
  stops on malformed JSON. The records before the malformed bytes are filtered and counted
  first, so an earlier record whose `pushed_at` does not parse is the error reported. How
  far Yajl reads into a malformed chunk before it raises is part of `fetch`, not modelled.
- An exception stops the Ruby script with a stack trace. The model gives the outcome
  `Aborted`, with the failure, and the lines printed until then.
- `DateTime.parse` is a library parser. A `pushed_at` is a `Timestamp`: either the instant
  it parses to or the text it rejects.
- The command line is not modelled: `OptionParser`, the defaults taken from
  `DateTime.now` (lines 54-57), and the rule at line 42 that clamps the end to yesterday.
  The clock is outside the model. Options come in as values.
- Line 42 compares only the day of the month with today's. Because the clamp is not
  modelled, the model says nothing about this comparison either.
- The option parser already reads the result count as an integer, so the `to_i` at line 67
  is the identity. The count in the options is an `int`.
- Printing (`puts`) becomes the returned sequence of lines.
- Calendar.CivilFromDays: the model's calendar is proleptic Gregorian at every date and
  reads every instant at UTC offset 0. Ruby's `DateTime` uses the Julian calendar before
  1582-10-15 and reads an instant's fields in its own offset; the defaults at lines 54-55
  carry the local offset. For windows before the reform, or with a non-zero offset, the
  model's URLs differ from the script's.
- Instants carry no UTC offset and no fractional seconds. A `pushed_at` is compared as a
  whole number of seconds.
- Ranking.SortByCount: no order between rows with equal counts is claimed, because Ruby's
  `sort` is not stable. The model's insertion sort is only one of the orders Ruby may
  produce.
- Records.RecordValid: a `repository` that is present but is not a JSON object, where Ruby
  would index the wrong type, is not modelled. The decoded record's fields are typed.
- RepoKey.StripHost: other regular expressions are not modelled. Only this pattern is
  modelled, and it is removed everywhere, with its wildcard dot, as `gsub` does. The key is
  the literal `owner/repo` only for URLs that contain the pattern once, at the front.
- Years below 0 are rendered with a minus sign, as `%d` renders them; year 0 prints as `0`. No archive exists for
  them, and the model places no bound on the window.
