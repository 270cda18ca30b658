# Stand-up ticket bot: parsers, concert store and reply packer

This project models the ticket pipeline of a Telegram bot that tracks
ticket sales for stand-up concerts. It has three stages.

1. **Provider normalisation.** Payloads from Yandex Afisha CRM,
   GoStandUp and Timepad become uniform event records (`Concert.Event`).
2. **The concerts table.** `upsert_concert` matches each event on its key
   (source, external id). It updates the row it finds or inserts a new one,
   then commits once. `list_concerts` returns the upcoming rows in a date
   window, ordered by date.
3. **The bot's reply.** Each concert gets an urgency marker from its days
   left and its sold ratio. It is rendered as a text block, and a greedy
   packer groups the blocks into messages, each opening with the same
   header. Every message holding two or more blocks is at most 3800
   characters; a block that does not fit beside the header is sent alone,
   whatever its length, because the packer never checks a fresh chunk.

It also models the one-line row formatter (`format_concert_row`) and the
record shapes: the source enum and the table columns.

Modules:

- `Wrappers`: `Option` and `Result`.
- `Seqs`: concatenation of a sequence of sequences.
- `Strings`: Python's `strip()` and `isspace()`, and `str()` of an integer.
- `Concert`: the shared records.
- `Parsers`, `ConcertRepository`, `Handler`, `HandlerUtils`: one module per
  source file.

Where the source changes state step by step, the model does too:

- `Parsers.MergeStats` updates the `stats` map in a loop.
- The three parse methods append to `items` in a loop.
- `ConcertRepository.ApplyEvents` updates or appends rows.
- `ConcertRepository.ConcertStore` is a class whose `rows` field is
  replaced by a single commit.
- `Handler.SendConcerts` accumulates a chunk and appends sent messages to
  an output sequence.

Each of these methods is proved equal to a specification function. The
properties are proved about those functions.

Conventions:

- Times are whole seconds of naive UTC time.
- The current time is the parameter `now`.
- Each HTTP response is an input value: `Success(payload)`, or
  `Failure(message)` when the request, the status check or JSON decoding
  raised.

## Model

| member | source | states |
|---|---|---|
| Parsers.Flatten | standup_ticket_bot/parsers.py:113-115 | the flattened list is as long as all the parts together |
| Parsers.FlattenAppend | standup_ticket_bot/parsers.py:113-115 | flattening distributes over concatenation of the outer list |
| Parsers.FlattenAt | standup_ticket_bot/parsers.py:113-115 | order is kept: part `k` of element `i` lands right after the parts of all earlier elements |
| Parsers.FlattenItems | standup_ticket_bot/parsers.py:113-115 | a list without nested lists flattens to its own items, unchanged |
| Parsers.ParseDtNormalises | standup_ticket_bot/parsers.py:118-127 | only unparseable text raises; the result is naive UTC, so writing it back as a naive timestamp parses to the same value; shifting the wall clock and the offset by the same amount does not change the result |
| Parsers.ParseDtSameInstant | standup_ticket_bot/parsers.py:125-127 | two spellings of the same instant in different offsets parse to the same value |
| Parsers.CollectSpec | standup_ticket_bot/parsers.py:159-185 | a parser loop returns the error of its first raising event, otherwise exactly the appended records in input order |
| Parsers.MergeStats | standup_ticket_bot/parsers.py:147-156 | the `setdefault`/`+=` loop builds exactly the map of per-id sums `Stats(rows)` |
| Parsers.StatsSnoc | standup_ticket_bot/parsers.py:148-156 | one more report row adds its sold and sold+available to its id's entry (starting from 0/0) and leaves every other entry alone |
| Parsers.AbsentIdSumsToZero | standup_ticket_bot/parsers.py:154-156 | an id with no report row sums to 0 sold and 0 total |
| Parsers.SoldWithinTotal | standup_ticket_bot/parsers.py:147-156 | with no negative availability, each id's summed sold count is at most its summed total |
| Parsers.YandexStep | standup_ticket_bot/parsers.py:162-183 | an event is emitted iff status is 1 and its date parses and is not before `now`; a status-1 event with an unparseable date raises; the emitted record has the id, the stripped name ("" when missing), the synthesised url and the merged counts (0/0 when absent) |
| Parsers.ParseYandex | standup_ticket_bot/parsers.py:134-185 | the method returns exactly `YandexEvents`: event-list error, empty list without the report, report error, or the collected loop |
| Parsers.YandexEmptyListSkipsReport | standup_ticket_bot/parsers.py:137-140 | an empty flattened event list returns `[]` whatever the report call would have answered |
| Parsers.YandexSelects | standup_ticket_bot/parsers.py:162-172 | an event's position is emitted iff status is 1 and its date parses and is not before `now` |
| Parsers.YandexEmitFields | standup_ticket_bot/parsers.py:174-183 | the k-th output record carries the k-th selected event's id, stripped name, its parsed date (not before `now`), the url built from the id, the sums of sold and of sold-plus-available over every report row for that id, and 0/0 tickets when the report has no row for it |
| Parsers.YandexKeepsLiveInOrder | standup_ticket_bot/parsers.py:162-185 | a successful `parse_yandex` returns one record per live event, in strictly increasing input order, with exactly the live events selected; each record has its event's id, stripped name, parsed date, url, and sold/total equal to the sums over that id's report rows (0/0 without a row) |
| Parsers.YandexSoldWithinTotal | standup_ticket_bot/parsers.py:147-183 | when no report row has negative availability, every emitted Yandex record has sold at most total |
| Parsers.GoStandUpStep | standup_ticket_bot/parsers.py:205-222 | no event is skipped; the name is the stripped title ("" when missing); counts come from `seats` when `seats.total` is truthy, else from `amount` with 0 defaults; the url falls back link, url, then the synthesised link; a NULL sold or an unparseable date aborts |
| Parsers.ParseGoStandUp | standup_ticket_bot/parsers.py:197-223 | the method returns exactly `GoStandUpEvents` of the response |
| Parsers.GoStandUpOnePerEvent | standup_ticket_bot/parsers.py:205-222 | a successful `parse_gostandup` returns exactly one record per input event, in order, with no status or date filter; record `k` is the one `GoStandUpStep` builds from event `k` |
| Parsers.FirstFilled | standup_ticket_bot/parsers.py:269-272 | the chosen date is the first non-empty candidate, and it is empty only when every candidate is empty |
| Parsers.TimepadStep | standup_ticket_bot/parsers.py:265-293 | skipped iff the date chain (`dates[0].start`, `dates[0].date`, `starts_at`) is all empty; counts are the sums over `ticket_types` when it is non-empty, otherwise the registration fallback; aborts iff the date does not parse, or the needed registration request fails, or its fallback leaves sold or total `None` (a `null` second field after a falsy first); the name is the stripped `name`, else `title`; id "None" for a missing id; the url falls back url, site_url, API link |
| Parsers.OrField | standup_ticket_bot/parsers.py:282-283 | `place.get(a, 0) or place.get(b, 0)`: the first field when it is a non-zero number, else the second with a missing key read as 0; `None` exactly when the first is not a non-zero number and the second is `null` |
| Parsers.ParseTimepad | standup_ticket_bot/parsers.py:247-295 | the method returns exactly `TimepadEvents` of the response and the registration answers |
| Parsers.TimepadKeepsDatedInOrder | standup_ticket_bot/parsers.py:265-295 | a successful `parse_timepad` keeps exactly the events with a date in the fallback chain, in increasing input order, with no date filter; record `k` is the one `TimepadStep` builds from the `k`-th kept event |
| ConcertRepository.Window | standup_ticket_bot/concert_repository.py:21-34 | the WHERE clause keeps each row as often as the table holds it when it is in the window, and drops it otherwise |
| ConcertRepository.SortByDate | standup_ticket_bot/concert_repository.py:26 | the ORDER BY result is sorted by date and a permutation of its input |
| ConcertRepository.ListConcerts | standup_ticket_bot/concert_repository.py:11-37 | the result is sorted by date, and holds every table row in the window (`now <= date`, and `date <= now + days` when days are given) as often as the table does, and nothing else |
| ConcertRepository.ListConcertsMembers | standup_ticket_bot/concert_repository.py:21-34 | a row is listed iff the table holds it and it is in the window; a listed row is never in the past |
| ConcertRepository.ListConcertsWiden | standup_ticket_bot/concert_repository.py:21-34 | a longer horizon lists everything a shorter one lists, and no horizon lists everything any horizon lists |
| ConcertRepository.Find | standup_ticket_bot/concert_repository.py:57-62 | `.first()` of the key query: the lowest position holding the key, or none when no row has it |
| ConcertRepository.NextId | standup_ticket_bot/models/concert.py:16 | the id given to an inserted row is used by no row in the table |
| ConcertRepository.UpsertOneSpec | standup_ticket_bot/concert_repository.py:57-79 | after one event the row with its key holds name, date, counts, url and `updated_at = now`; an existing row keeps id, key and `created_at`; a missing key adds one row at the end with a fresh id and `created_at = now`; no other row changes |
| ConcertRepository.UpsertAllAppend | standup_ticket_bot/concert_repository.py:53-79 | applying two parsers' events in a row is applying their concatenation |
| ConcertRepository.UpsertAllKeepsUnique | standup_ticket_bot/concert_repository.py:70-79 | keys and primary keys that are unique before stay unique, though the schema enforces neither on the key |
| ConcertRepository.UpsertAllKeepsRows | standup_ticket_bot/concert_repository.py:56-69 | existing rows keep position, id, key and `created_at`; rows whose key no event carries are untouched |
| ConcertRepository.UpsertAllLastWins | standup_ticket_bot/concert_repository.py:56-79 | for each key some event carries, the table has a row with that key holding the last such event's columns |
| ConcertRepository.UpsertAllNoGrowth | standup_ticket_bot/concert_repository.py:64-69 | when every event's key is already present, no row is added |
| ConcertRepository.UpsertIdempotent | standup_ticket_bot/concert_repository.py:53-79 | applying the same events twice (same `now`) gives the same table as applying them once |
| ConcertRepository.GatherSpec | standup_ticket_bot/concert_repository.py:53-54 | the parsers' outputs succeed iff every parser succeeds, then in parser order; otherwise the earliest error wins |
| ConcertRepository.GatherStopsAtFailure | standup_ticket_bot/concert_repository.py:53-54 | once a parser raises after successful ones, that error is the outcome whatever the later parsers would do |
| ConcertRepository.ApplyEvents | standup_ticket_bot/concert_repository.py:56-79 | the select-then-update-or-add loop over one parser's events computes exactly `UpsertAll` |
| ConcertRepository.ConcertStore.UpsertConcert | standup_ticket_bot/concert_repository.py:40-81 | if any parser raises, the error is returned and the table is unchanged; otherwise the table becomes every event applied in parser order, in one commit; a table with unique keys and ids keeps them unique |
| ConcertRepository.UpsertConcertKeepsUnique | standup_ticket_bot/concert_repository.py:53-81 | a committed upsert keeps keys and primary keys unique |
| Handler.ClassifyByThreshold | standup_ticket_bot/handler.py:48-55 | green iff two weeks or more away or the ratio reaches the band's threshold (0.7, 0.5, 0.3); otherwise red, orange or yellow by band |
| Handler.ClassifyMonotone | standup_ticket_bot/handler.py:48-55 | more days left or a higher ratio never turns a green concert non-green |
| Handler.ZeroTotalIsUrgent | standup_ticket_bot/handler.py:45-53 | a zero total counts as ratio 0, so under two weeks away such a concert is never green |
| Handler.MarkerForInIntegers | standup_ticket_bot/handler.py:42-55 | with a positive total, the marker equals the integer classification (`seconds < d * 86400`, `10 * sold < p * total`) |
| Handler.BlockShape | standup_ticket_bot/handler.py:58-63 | a block starts with its concert's marker and ends with a blank line |
| Handler.PackPartition | standup_ticket_bot/handler.py:35-75 | the messages' blocks put back together are exactly the input blocks: each whole, once, in order |
| Handler.PackHeaderOnly | standup_ticket_bot/handler.py:66-75 | only the first message can be header-only, and it is exactly when the first block does not fit beside the header |
| Handler.PackFits | standup_ticket_bot/handler.py:66-75 | every message holding two or more blocks is within the limit |
| Handler.PackGreedy | standup_ticket_bot/handler.py:66-75 | every message but the last was closed because the next block would not fit after it |
| Handler.PackRendered | standup_ticket_bot/handler.py:66-75 | one more block either sends the chunk and restarts it as header + block, or appends the block to the chunk |
| Handler.HeaderNotBlank | standup_ticket_bot/handler.py:32 | the header `<b>{title}</b>` is never whitespace-only |
| Handler.MessagesAreGroups | standup_ticket_bot/handler.py:78-84 | with a non-blank header the final chunk is always sent, so there is one message per group |
| Handler.MessagesStartWithHeader | standup_ticket_bot/handler.py:32-75 | every message sent opens with the header |
| Handler.AddBlock | standup_ticket_bot/handler.py:66-75 | one loop turn moves the sent messages and the chunk from the packing of the blocks so far to the packing with one more block |
| Handler.SendConcerts | standup_ticket_bot/handler.py:24-84 | an empty list sends exactly "Концертов не найдено."; otherwise the messages sent are exactly the packed messages of the header and the concerts' blocks |
| Strings.Strip | standup_ticket_bot/parsers.py:167 | `strip()` returns a middle slice with whitespace only before and after it, and neither end of the result is whitespace |
| Strings.BlankIffAllSpace | standup_ticket_bot/handler.py:78 | `not chunk.strip()` holds iff every character is whitespace |
| Strings.IntToStringRoundTrip | standup_ticket_bot/handler.py:62 | every printed integer reads back as itself |
| HandlerUtils.LabelKnown | standup_ticket_bot/handlers/utils.py:6-19 | every source has its own label, so the "?" fallback is never shown |
| HandlerUtils.FormatConcertRow | standup_ticket_bot/handlers/utils.py:13-25 | the row starts with the name and a space and ends with a space and the unit |
| HandlerUtils.UnitIffTimepad | standup_ticket_bot/handlers/utils.py:23 | the row ends in "регистраций" iff the source is Timepad, and in "билетов" iff it is not |
| HandlerUtils.FormatConcertRowLabel | standup_ticket_bot/handlers/utils.py:19-25 | the source label stands in parentheses right after the name and date |
| HandlerUtils.FormatConcertRowCounts | standup_ticket_bot/handlers/utils.py:20-25 | after the dash the row holds `sold/total`, which reads back as the row's counts |
| HandlerUtils.CountsRoundTrip | standup_ticket_bot/handlers/utils.py:25 | the counts text `sold/total` reads back as the pair it printed, whatever the signs |

## Left out

- HTTP and session plumbing are not modelled. This covers `_session`, `_yandex_call`, `fetch_registration`, the `session.get` blocks, `_yandex_auth` (hashing over the wall clock) and `_safe_json`. Each response is an input (`Success`/`Failure`), and the registration lookup is a function parameter.
- The dateutil parser is not modelled. A date string is already `Blank`, `Stamp(wall, offset)` or `Unparseable`, and `Parsers.ParseDt` only does the UTC normalisation.
- Outside the Timepad registration place (see `Parsers.Field`), JSON `null` and a missing key are both `None`. The source raises on some nulls, which the model does not reproduce: a null Yandex `name` (`.strip()` on None), a null report count (`sold + avail`), or a null GoStandUp `amount.sold` or `amount.total` when `seats.total` is falsy (a NULL column). The model reads those as missing.
- Provider ids are always present strings; a missing Yandex or GoStandUp `id` (`KeyError`) is not modelled.
- The 800-character snippet in `_safe_json` error messages is left out with `_safe_json`.
- Parsers.GoStandUpStep: with a truthy `seats.total` and no `seats.sold`, the source emits `tickets_sold = None`, and the NOT NULL column fails at the next flush inside `upsert_concert`. The model aborts at that event instead. The observable outcome is the same: an error and no commit. The error text and the point where it is raised differ.
- Parsers.TimepadStep: when the registration fallback leaves `tickets_sold` or `tickets_total` as `None`, the source emits the record and the NOT NULL column fails at the next flush. As with GoStandUp, the model aborts at that event; the error text and the point where it is raised differ, and the outcome (an error, no commit) is the same.
- `strftime` is an abstract function parameter: `stamp` in `Handler.Block` and `dayMonth` in `HandlerUtils.FormatConcertRow`. This covers both the `%Y-%m-%d %H:%M` rendering in Moscow time and the `%d/%m` rendering.
- Handler.Classify: `days_left` and `sold_pct` are Python floats in the source. The model uses exact reals, and `Handler.MarkerForInIntegers` ties them to integer arithmetic. Rounding at a band or threshold boundary is not modelled.
- Handler.SendConcerts: `datetime.utcnow()` is read once per concert in the source; the model takes a single `now`. Telegram's `reply_markup`, `parse_mode` and preview flags are not modelled; a message is its text.
- ConcertRepository.ListConcerts: it states membership, multiplicity and ascending date order. It does not fix the order of rows with equal dates, because SQL does not either.
- ConcertRepository.UpsertIdempotent: proved for the same `now` and a table whose keys and ids are unique. `updated_at` is set again on every update. SQLAlchemy skips an UPDATE that changes no column, so the model is stricter only in refreshing `updated_at` on an unchanged row.
- The table is a sequence of rows in insertion order. Ids come from `ConcertRepository.NextId` (one more than the largest id in use), standing in for the database's autoincrement key. Autoflush is modelled: a row inserted earlier in the same run is found by later lookups.
- Concurrency and scheduling are not modelled. This covers `main.py` (the asyncio loop, polling and the try around `upsert_concert`, which only logs), `handlers/concerts.py` (a router the bot does not include), `schemas.py`, `config.py`, `database.py`, `keyboards.py` and the two manual API scripts.
- Behaviours of the source that the model keeps as they are:
  - a zero `tickets_total` gives a sold ratio of 0 (standup_ticket_bot/handler.py:45), so such a concert less than 14 days away gets an urgent marker;
  - an error from any one parser aborts the whole cycle before the commit;
  - GoStandUp and Timepad keep past events, because only `parse_yandex` compares the date with now;
  - the `SOURCE_ICONS` fallback to the enum name is never taken, because the table covers every source.
