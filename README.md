# foo_openlyrics lyric search, modelled in Dafny

This project models the core of the lyric search in foo_openlyrics, a lyrics
panel for the foobar2000 player. Three parts are modelled.

- **Line-ending normalisation** (`newlines.dfy`, module `Newlines`).
  `ensure_windows_newlines` puts a carriage return before every line feed
  that does not already have one. It works in place, in a `while(true)` loop
  around `std::string::find` and `insert`. `EnsureWindowsNewlines` keeps that
  loop. It is proved equal to the reference function `Crlf`, and the lemmas
  about `Crlf` give the properties of the output:
  - every line feed ends up after a carriage return;
  - the text grows by exactly one character per bare line feed;
  - only carriage returns are added;
  - a text is unchanged exactly when it is already in Windows form;
  - normalising twice is the same as normalising once;
  - emptiness is kept.
- **The search worker** (`lyric_search.dfy`, module `Search`). This is the
  sequential decision logic of `LyricSearch::run_async`:
  - the sources are tried in their configured order;
  - the abort check runs before each query;
  - a source that throws, or returns empty text, is passed over;
  - the first source with non-empty text wins;
  - the text is parsed only when it is non-empty;
  - downloaded lyrics are saved as the save method says;
  - the result is published exactly once, then completion is signalled.

  The reference function `Scan` defines the order of queries and their
  result. `RunAsync` is proved to publish `Published(env)` and to produce
  exactly the trace `Trace(env)`, where a trace is the sequence of
  observable events (queries, save or warning, publish, complete).
- **The lyric record** (`lyric_data.dfy`, module `LyricRecord`). `LyricData`
  is a class with the fields of the C++ struct. Each `TCHAR*` line buffer is
  modelled by the identity of its allocation. The class models:
  - `IsEmpty` and `IsTimestamped`;
  - default construction, the move constructor and move assignment;
  - the destructor, which releases each line buffer through an `Allocator`
    that tracks the live buffers.

  Lemmas show that a move keeps each buffer owned exactly once. They also
  show that destruction releases exactly the record's buffers.

Foreign calls are inputs of the model. They are all fields of
`Search.Environment`:
- the list of active sources, and each source's query outcome;
- the state of the abort flag at each check;
- the autosave and save-method preferences;
- the LRC parser and its `shrink_text`.

`SaveLyrics` is recorded as a `Save` event carrying the text it would write.
Where a log warning is part of the decision, it is recorded as a `Warning`
event.

## Model

| member | source | states |
|---|---|---|
| Newlines.FindChar | src/lyric_search.cpp:62-66 | `str.find('\n', prev_index)`. `Some(i)` gives the first index at or after the start holding the character. `None` (`npos`) means none holds it, including when the start is past the end. |
| Newlines.InsertChar | src/lyric_search.cpp:71 | `str.insert(next_index, 1, cr)`: the result is one character longer, holds `c` at the insertion point, and keeps the characters before it in place and those after it shifted by one. |
| Newlines.EnsureWindowsNewlines | src/lyric_search.cpp:56-77 | The find/insert loop of the source, with its re-find of the same line feed after an insertion. It terminates, and the text it leaves is exactly `Crlf(s)`: a CR inserted before each LF not already preceded by one, and nothing else changed. |
| Newlines.CrlfAllLfHaveCr | src/lyric_search.cpp:68-73 | In the result, every line feed is immediately preceded by a carriage return. |
| Newlines.CrlfLength | src/lyric_search.cpp:68-73 | The result is longer than the input by exactly the number of bare line feeds, which is the source's `replace_count`. |
| Newlines.CrlfCounts | src/lyric_search.cpp:68-73 | Only carriage returns are added, one per bare line feed. Every other character keeps its count, and the line feed count is unchanged. |
| Newlines.CrlfFixedIff | src/lyric_search.cpp:68-73 | The text is left unchanged if and only if all its line feeds already follow a carriage return. A text without line feeds is always unchanged. |
| Newlines.CrlfIdempotent | src/lyric_search.cpp:56-77 | Normalising an already normalised text changes nothing. |
| Newlines.CrlfEmptyIff | src/lyric_search.cpp:116-122 | The result is empty if and only if the input is. So the parse guard, applied after normalisation, sees the same emptiness as the loop's success test. |
| Search.QueryActiveSources | src/lyric_search.cpp:85-115 | The source loop: the abort check, then the query, for each source in order. Throws are caught and the loop moves on. The first non-empty text breaks the loop. Its success source and its queried sources agree with the reference `Scan`. Its raw text is non-empty exactly when there is a success, and is then the winner's raw data. |
| Search.ScanOutcome | src/lyric_search.cpp:85-115 | A non-recursive characterisation of the loop: success only at a source queried before the abort whose text is non-empty, and at no earlier such source. The queried indices are consecutive, up to the stop. After a failure the raw text is empty. |
| Search.FirstSuccessWins | src/lyric_search.cpp:87-103 | The search succeeds at source `k` if and only if the check before `k` had not aborted, `k` returned non-empty text, and no earlier source did. |
| Search.QueriedInOrder | src/lyric_search.cpp:87-115 | Queries happen in configured order, starting at the first source. None happens after the winner or once the abort flag is set. |
| Search.RawIffSuccess | src/lyric_search.cpp:85-115 | After the loop, `lyric_data_raw.text` is non-empty if and only if `success_source` is set, and it is then that source's answer. |
| Search.FailedSearchPublishesEmpty | src/lyric_search.cpp:82-122 | When no source succeeds, the record published is the fresh empty `LyricData` (`EmptyValue`), whatever the parser would return. The trace is then the queries followed by publish and complete, with no save or warning. |
| Search.SuccessfulSearchPublishesParse | src/lyric_search.cpp:116-122 | When source `k` succeeds, the published record is the parse of `k`'s raw data with normalised line endings. |
| Search.SaveIfDownloaded | src/lyric_search.cpp:124-168 | The save block, for the current record and success source. Its steps are the reference `SaveSteps`. |
| Search.SaveStepsShape | src/lyric_search.cpp:124-168 | The save block takes at most one step, and that step is a save or a warning. |
| Search.SavePolicy | src/lyric_search.cpp:126-160 | The save branch is taken (a `Save` event) if and only if the record is non-empty, autosave is on, a non-local source succeeded and the method is `ConfigDirectory`. A timestamped record is written shrunk. Any other record is written as the record's `text`. A warning happens if and only if the same guard holds with method `Id3Tag` or an unrecognised one, and it names that method. `None` does nothing. |
| Search.PublishedExactlyOnce | src/lyric_search.cpp:170-175 | The trace contains exactly one publication and exactly one completion signal. They are its last two steps, in that order. |
| Search.TraceQueries | src/lyric_search.cpp:87-115 | A source is queried in the trace if and only if the loop reached it. |
| Search.FallbackExample | src/lyric_search.cpp:87-122 | Three sources: one throws, one returns empty text, one returns lyrics. All three are queried in order, the third wins, and the parse of its normalised text is published. |
| Search.LyricSearch.constructor | src/lyric_search.cpp:11-16 | The initial state: no result published (`m_lyrics` null) and completion not signalled. |
| Search.LyricSearch.GetResult | src/lyric_search.cpp:48-54 | `get_result` returns the published slot. Once completion is signalled, the slot is not null. |
| Search.LyricSearch.RunAsync | src/lyric_search.cpp:79-177 | The worker body. Afterwards completion is signalled after a fresh record was published. The record holds `Published(env)`, and the steps taken are exactly `Trace(env)`: queries, then at most one save or warning, then publish, then complete. |
| LyricRecord.LyricValue.IsEmpty | src/lyric_data.cpp:15-18 | A record is empty if and only if it owns no line buffer, so an empty record's destructor releases nothing. |
| LyricRecord.LyricValue.IsTimestamped | src/lyric_data.cpp:10-13 | A timestamped record is not empty, and some line of it carries a real timestamp (not `DBL_MAX`). |
| LyricRecord.LyricData.IsEmpty | src/lyric_data.cpp:15-18 | `IsEmpty` on the record's fields: true if and only if the record owns no line buffer. |
| LyricRecord.LyricData.IsTimestamped | src/lyric_data.cpp:10-13 | `IsTimestamped` on the record's fields: a timestamped record is never empty. |
| LyricRecord.TimestampedNotEmpty | src/lyric_data.cpp:10-18 | A timestamped record is never empty. |
| LyricRecord.TimestampedUniform | src/lyric_data.cpp:10-13 | `IsTimestamped` reads only the first line (`timestamp != DBL_MAX`). If the lines are uniformly timestamped, that is the same as every line having a timestamp. |
| LyricRecord.BufferBagUnique | src/lyric_data.cpp:31-37 | No two lines share a buffer if and only if no buffer occurs twice in the record's bag of buffers. A buffer occurs in the bag exactly when some line points to it. |
| LyricRecord.MoveKeepsSingleOwnership | src/lyric_data.cpp:20-37 | Suppose a move splits a record's buffers between two records, and each buffer was owned once. Then each is still owned once, the two records share no buffer, and none is lost. Destroying both therefore frees each buffer exactly once. |
| LyricRecord.Allocator.Release | src/lyric_data.cpp:35 | `delete[]` on a live buffer removes it from the live set and changes nothing else. |
| LyricRecord.LyricData.constructor | src/lyric_data.h:27 | A value-initialised record is `EmptyValue`, empty and not timestamped. |
| LyricRecord.LyricData.Holding | src/lyric_search.cpp:121 | The temporary that `parsers::lrc::parse` returns, holding exactly the parsed value, before it is moved into `*lyric_data`. |
| LyricRecord.LyricData.Moved | src/lyric_data.cpp:5-8 | The move constructor: the new record holds the old contents of `other`, and `other` is reset to empty. The buffers move across, with none lost or gained. |
| LyricRecord.LyricData.MoveAssign | src/lyric_data.cpp:20-29 | Move assignment copies the source id and the text, moves the tags and lines, and resets `other` to the empty record. The buffers of `other` move across unchanged, so single ownership is kept. |
| LyricRecord.LyricData.Destroy | src/lyric_data.cpp:31-37 | The destructor releases the buffer of every line, once each. The live set afterwards is the old live set minus exactly the record's buffers. |

## Left out

- The threading of `LyricSearch` is left out: the task it starts, and the destructor's abort, 30-second wait and handle clean-up (src/lyric_search.cpp:17-46). The constructor is modelled only for its field initialisation.
- The critical sections around `m_lyrics` are left out. Publication and `get_result` are plain field accesses, because the model has one thread.
- `SetEvent` is assumed to succeed. Its `assert(complete_success)` is a debug check and is left out.
- Logging and `TRACK_CALL_TEXT` are left out, because they do not affect any decision.
- `LyricSourceBase::get` and its debug null-pointer assert are left out. The source list comes in as data.
- The debug `assert(false)` in the `Id3Tag` and unrecognised save branches is left out. Those branches keep only their warning.
- A foreign call that throws is treated like this:
  - The source's own `query` can throw, including when the abort is signalled during the query. This is the `Throws` outcome.
  - `SaveLyrics` can also throw. Its exceptions are caught and logged, and the model does not separate a failed save from a completed one: the `Save` event records that the save branch was taken.
- Search.SavePolicy: `shrink_text` is assumed not to throw, so `env.shrink` is a total function. In the source, `shrink_text` runs before `SaveLyrics` (src/lyric_search.cpp:140-141). If it throws, the exception is caught at src/lyric_search.cpp:165 and `SaveLyrics` is never called. The model still emits the `Save` event for that case.
  - A non-`std::exception` thrown from the save block would escape `run_async`. That case is not modelled.
- Search.LyricSearch.RunAsync: `ensure_windows_newlines` and `parsers::lrc::parse` run outside both `try` blocks (src/lyric_search.cpp:116-122). The model assumes that the parser and the string insertion in the normalisation never throw, so `env.parse` is a total function. In the source such an exception leaves `run_async` before publication: `m_lyrics` is never set and `SetEvent` never runs. The wait in the destructor (src/lyric_search.cpp:34) can then only end by timing out, if the process survives the exception. What happens to an exception that escapes the task depends on `fb2k::splitTask`, which is not part of this model. The `ensures` on completion and `PublishedExactlyOnce` hold only under that assumption.
- The timestamp `double` is not modelled as floating point. The source only compares it with `DBL_MAX`, so a timestamp is either `NoTimestamp` or a `real`.
- `TCHAR` line contents and `text_length` are carried but not interpreted. A buffer is only an allocation identity, and a null line pointer is not modelled.
- `GUID` is an opaque value.
- `replace_count` is a 32-bit `int` that the source never reads. The model counts it as a `nat`, and its wrap-around is not modelled, because nothing depends on it.
- Newlines.EnsureWindowsNewlines: the source changes its `std::string&` argument in place. The model takes the text and returns the updated text.
- Search.QueryActiveSources and `Search.SaveIfDownloaded` are blocks of `run_async`, the source loop and the save `try` block, written as separate methods. `RunAsync` calls them in the source's order.
- The temporary that `parsers::lrc::parse` returns is moved from and then destroyed. Its lines have already moved out, so it releases nothing. That destruction is not shown as a `Destroy` call.
- LyricRecord.LyricData.MoveAssign does not model self-move: it requires `other != this`. The C++ library leaves self-move of vectors unspecified.
- LyricRecord.LyricData.MoveAssign and `LyricRecord.LyricData.Moved` take the moved-from tag and line vectors to be empty. This is what `std::vector` move assignment leaves with the standard allocator.
- `src/lyric_io.h` is not part of this model.

## Notes on the code

In these places the code does something a reader might not expect, and
the model follows the code.

- **The text saved for a record without timestamps.** It is the parsed
  record's `text` field, which the parser fills. It is not the raw
  downloaded text.
- **The raw data left by a failed search.** It can be the empty answer of
  the last source queried, rather than the value-initialised one. This is
  harmless, because an empty text is never parsed.
- **Move assignment drops the destination's line buffers without releasing
  them.** `run_async` only ever move-assigns onto a freshly constructed,
  empty record, so nothing leaks there. The model keeps the behaviour of
  the code. `MoveAssign` does not touch the allocator.
