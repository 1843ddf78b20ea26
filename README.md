# Discord log shipping, modelled in Dafny

This project models the helpers that Shelby_Gamble_System uses to ship its logs to Discord,
and to shape the data its API returns:

- **`Embeds`** (`app/helpers/embed.py`) is the `EmbedListBuilder`. It is a class holding a
  non-empty list of embeds. It packs named text values into the last embed, and copies the base
  embed into a fresh one whenever a Discord limit would be broken. The limits are 6000 characters
  per embed, 4096 per description, 1024 per field value and 25 fields per embed. A value too long
  for one field is split into several.
- **`Utility`** (`app/helpers/utility.py`) covers:
  - `chunk_embeds`, the greedy packing of embeds into webhook calls of at most 10 embeds and 6000
    characters;
  - `find_first`;
  - the case conversions `to_snake_case`, `undo_camel_case` and `camel_case`;
  - `to_camel`, which camel-cases every key of a response.
- **`Logging`** (`app/helpers/logging.py`) is the `WebhookHandler`. It keeps a per-level list of
  suppressed logger names, and a queue of records that pass them. Its drain step `_emit`:
  - groups the queue into consecutive runs by level, then by logger name;
  - renders each level run through a builder;
  - sends the embeds in `chunk_embeds` batches;
  - clears the queue only when nothing raised.
- **`Webhooks`** (`app/helpers/webhook.py`) is the `Webhook` client. `customize` routes
  arguments to attributes or to the customisation dict. `send` validates its arguments and
  assembles the posted body. `_customize` fills in missing properties. The module also builds
  the error report posted after a rejected call.
- **`Paging`** (`app/helpers/paging.py`) covers schema-checked records (`Base.__init__`), the
  `PagingInfo` defaults, `Paging.to_response` and `__deepcopy__`.
- **`PyData`** holds the Python values these helpers move around. It has dicts as ordered
  key/value lists, truthiness, ASCII case mapping and decimal `str(int)`.
- **`Wrappers`** holds `Option` and `Result`.

Each operation that changes state in place is a method on a class, or a method with a loop. It is
proved equal to a specification function, and the properties are proved about that function.
Python exceptions are the `Failure`/`Raised` side of a result.

What the builder holds is stated by `Embeds.Content`: the fields of the first embed, then the
fields each later embed holds beyond the base fields it was copied with. The lemmas about it
require that every later embed starts with the base fields (`CopiesExtendBase`). The builder
starts with one embed, which has it trivially. `CopyContent`, `PlaceContent` and
`AddFieldContent` prove that appending a base copy, placing a field and `add_field` keep it.

Three kinds of external behaviour are parameters of the model:
- the webhook transport, `send(batch) -> bool`;
- `textwrap.wrap`: in `add_field`, a wrapper whose lines are at most `width` long; in `_emit`,
  an arbitrary function;
- the `uuid4` string that paging uses for a new id.

The following quirks of the code are modelled as written:
- **`add_field` fall-through.** After splitting a long value into fields, it also appends the
  whole value as one more field (`AddFieldKeepsOversizedValue`).
- **Consecutive grouping.** `itertools.groupby` groups only consecutive records
  (`GroupRuns`).
- **Filters are lists.** A name added twice stays suppressed after one removal
  (`RemoveFirstTwice`).
- **Two different names.** Filtering reads `record.name`, while grouping uses
  `_get_record_name` (`PassFilter` vs `RecordName`).
- **Leading empty chunk.** A first embed over 6000 characters gives a leading empty chunk
  (`ChunksLeadingEmpty`).
- **Missing description.** A new embed without `copy_description` has no description, so
  `add_description_text` raises `TypeError` after appending it (`DescriptionOverflowRaises`).

## Model

| member | source | states |
|---|---|---|
| Embeds.AppendField | app/helpers/embed.py:147 | adding a field appends it to the fields and adds its name and value lengths to the embed's length |
| Embeds.Place | app/helpers/embed.py:138-147 | earlier embeds are unchanged and at most two new ones appear; when new ones appear the old latest embed stays as it was and an embed between it and the final one is a fresh base copy; a base copy starts when the latest embed holds `field_count_limit` fields, or when the field would take it over 6000 characters; otherwise the field is appended to the latest embed; two embeds are added exactly when the field-count trigger fired and a fresh copy plus the field would still pass 6000 characters; the field always ends the final embed |
| Embeds.PlaceKeepsFieldCounts | app/helpers/embed.py:138-140 | with a base embed below the field limit, placing a field keeps every embed within `field_count_limit` fields |
| Embeds.CopyKeepsFieldCounts | app/helpers/embed.py:65-70 | appending a base copy keeps every embed within the field limit |
| Embeds.CodeBlock | app/helpers/embed.py:98 | the code block adds exactly 8 characters |
| Embeds.LineEnd | app/helpers/embed.py:119 | the first line boundary, and no boundary before it |
| Embeds.SplitLines | app/helpers/embed.py:119 | `splitlines` pieces hold no line-boundary character, and there are none exactly for the empty text |
| Embeds.SplitLinesRejoin | app/helpers/embed.py:119 | each line followed by the boundary that ended it ("\r\n" or one boundary character; only the last may have none) joins back to the whole text |
| Embeds.EscapeBackticks | app/helpers/embed.py:98 | the escaped text is longer by exactly one character per backtick and never starts with a backtick |
| Embeds.EscapeRoundTrip | app/helpers/embed.py:98 | reading "\`" back as a backtick recovers the original value: escaping loses nothing |
| Embeds.WrapLines | app/helpers/embed.py:119-120 | every wrapped line is at most `width` long |
| Embeds.PiecesFit | app/helpers/embed.py:122-134 | every piece passed to the recursive `add_field` fits 1024 characters with its overhead (8 in a code block, else 1 newline), so those calls never raise |
| Embeds.PiecesConcat | app/helpers/embed.py:122-134 | the pieces concatenate to the rendered lines, in order, losing nothing |
| Embeds.PlaceAll | app/helpers/embed.py:124-134 | placing the pieces leaves every earlier embed unchanged |
| Embeds.PlaceAllKeepsFieldCounts | app/helpers/embed.py:124-140 | placing the split pieces keeps every embed within the field limit |
| Embeds.AddFieldResult | app/helpers/embed.py:94-147 | raises ValueError exactly when `split_lines` is off and the value (plus 8 with `wrap_code`) is over 1024 characters; never removes an embed |
| Embeds.AddFieldKeepsEarlier | app/helpers/embed.py:94-147 | `add_field` changes only the last embed and appends new ones; earlier embeds stay as they were |
| Embeds.AddFieldFitting | app/helpers/embed.py:96-147 | a value that fits one field after the escaping, with `split_lines` on or off, is placed as exactly one field |
| Embeds.PlaceContent | app/helpers/embed.py:138-147 | placing a field adds exactly that field after every field the builder already holds, whatever new embeds it starts |
| Embeds.PlaceAllContent | app/helpers/embed.py:123-134 | the recursive calls of the split path add one field per piece, under the name, in piece order |
| Embeds.AddedFields | app/helpers/embed.py:101-147 | `add_field` adds at least one field, every one under its name and inline flag, and the last holds the whole (escaped, wrapped) value |
| Embeds.AddFieldContent | app/helpers/embed.py:94-147 | `add_field` adds exactly the split pieces' fields (when the value is too long) and then the whole value's field, after every field already held and nothing else |
| Embeds.AddFieldKeepsFieldCounts | app/helpers/embed.py:94-147 | with a base embed below the limit, no embed ever holds more than `field_count_limit` fields |
| Embeds.CopyKeepsHeaders | app/helpers/embed.py:65-70 | a base copy keeps the base embed's author and colour |
| Embeds.PlaceKeepsHeaders | app/helpers/embed.py:138-147 | placing a field keeps every embed's author and colour equal to the base's |
| Embeds.PlaceAllKeepsHeaders | app/helpers/embed.py:124-134 | placing split pieces keeps every embed's author and colour equal to the base's |
| Embeds.AddFieldKeepsHeaders | app/helpers/embed.py:94-147 | after `add_field` every embed still has the base embed's author and colour |
| Embeds.AddFieldKeepsOversizedValue | app/helpers/embed.py:135-147 | on the split path the whole oversized value is added as the last field too, under the same name and longer than 1024 characters |
| Embeds.AddDescriptionResult | app/helpers/embed.py:149-164 | earlier embeds are unchanged and at most two are added; a missing latest description raises TypeError with no change; an overflow past 4096 or past 6000 characters starts a new embed, and a description that fits both limits is appended in place; a new embed leaves the old latest one as it was, with a base copy between it and the final one when two are added; on success the latest description grows by exactly `1 + len(value)`; it raises exactly when the latest description is missing or a new embed was started from a base copy without one; two embeds are added exactly when the description overflows 4096 and a fresh copy plus the text would pass 6000 |
| Embeds.DescriptionOverflowRaises | app/helpers/embed.py:154-164 | without `copy_description`, an overflowing description raises TypeError after appending a description-less embed |
| Embeds.DefaultPaginationReadsBack | app/helpers/embed.py:176-179 | the default footer is "current/total", and both numbers parse back |
| Embeds.EmbedListBuilder.constructor | app/helpers/embed.py:40-58 | the builder starts with exactly the base embed and no content |
| Embeds.EmbedListBuilder.LatestEmbed | app/helpers/embed.py:60-63 | the latest embed is the last one of the list |
| Embeds.EmbedListBuilder.NewEmbed | app/helpers/embed.py:65-70 | appends a base copy whose description is cleared unless `copy_description` is set |
| Embeds.EmbedListBuilder.SetFooter | app/helpers/embed.py:72-78 | every embed gets the footer, and nothing else changes |
| Embeds.EmbedListBuilder.AddPagination | app/helpers/embed.py:176-179 | embed i (counted from 1) gets the footer formatted with (i, n), and nothing else changes |
| Embeds.EmbedListBuilder.AddField | app/helpers/embed.py:80-147 | the list becomes `AddFieldResult`; when that raises, the list is unchanged and only `has_content` is set |
| Embeds.EmbedListBuilder.PlaceField | app/helpers/embed.py:135-147 | the list becomes `Place` of the old list |
| Embeds.EmbedListBuilder.SplitIntoFields | app/helpers/embed.py:107-134 | the list becomes the split pieces placed one by one |
| Embeds.EmbedListBuilder.AddDescriptionText | app/helpers/embed.py:149-164 | the list and the outcome are those of `AddDescriptionResult` |
| Utility.ChunkEmbeds | app/helpers/utility.py:228-245 | the loop computes `Chunks(embeds)` |
| Utility.ChunksFlatten | app/helpers/utility.py:234-245 | concatenating the chunks gives back the input: nothing lost, duplicated or reordered |
| Utility.ChunksBounded | app/helpers/utility.py:237-245 | every chunk has at most 10 embeds; a chunk over 6000 characters is a single embed |
| Utility.ChunksWithinLimit | app/helpers/utility.py:237-245 | when no embed is over 6000 characters, no chunk is over 6000 |
| Utility.ChunksGreedy | app/helpers/utility.py:238-243 | a chunk is closed only when it holds 10 embeds or the next embed would take it over 6000; only the first chunk can be empty |
| Utility.ChunksLeadingEmpty | app/helpers/utility.py:237-245 | the first chunk is empty exactly when the input is empty or its first embed is over 6000 characters; an empty input gives one empty chunk |
| Utility.ChunksTwelveOfFiveHundred | app/helpers/utility.py:238-243 | twelve embeds of 500 characters give chunks of 10 and 2 |
| Utility.FindFirst | app/helpers/utility.py:147-165 | the smallest index whose item matches, with that item, or (-1, None) exactly when nothing matches |
| Utility.SnakeSubMarksRuns | app/helpers/utility.py:225 | the regex substitution inserts "_" before each maximal uppercase run that follows a non-uppercase run |
| Utility.ToSnakeCaseSpec | app/helpers/utility.py:222-225 | `to_snake_case` is the lowercased marking, and holds no ASCII uppercase letter |
| Utility.ToSnakeCaseNoUpper | app/helpers/utility.py:222-225 | a string without uppercase letters is returned unchanged |
| Utility.UndoSubSpacesRuns | app/helpers/utility.py:268 | the substitution replaces each maximal uppercase run with a space and the run in lowercase |
| Utility.UndoCamelCaseSpec | app/helpers/utility.py:265-268 | `undo_camel_case` is that replacement and holds no uppercase letter |
| Utility.CollapseSeparators | app/helpers/utility.py:261 | no space, bracket or "-" is left after the runs become "_" |
| Utility.SplitUnderscore | app/helpers/utility.py:262 | the pieces join back to the text with "_", and no piece holds "_" |
| Utility.CamelCaseWordChars | app/helpers/utility.py:257-263 | `camel_case` output holds no separator and no "_" |
| Utility.CamelCaseLower | app/helpers/utility.py:257-263 | lowercased, `camel_case` equals its input with separators and "_" removed |
| Utility.Capitalize | app/helpers/utility.py:263 | `str.capitalize`: the first character in uppercase and every other in lowercase |
| Utility.CamelCaseRecased | app/helpers/utility.py:257-263 | `camel_case` keeps the input's word characters in order, each in uppercase exactly when it directly follows a separator or "_" (it starts a piece after the first), else in lowercase |
| Utility.FromPairs | app/helpers/utility.py:220 | the dict comprehension has each key once, the same keys as the pairs, and only entries drawn from the pairs |
| Utility.FromPairsLastWins | app/helpers/utility.py:220 | a repeated key keeps its last value |
| Utility.ToCamel | app/helpers/utility.py:202-220 | lists and tuples become lists whose item i is item i converted; dicts become dicts with distinct keys; any other value is returned unchanged |
| Utility.ToCamelDictEntries | app/helpers/utility.py:220 | the keys of a converted dict are exactly the camel-cased input keys, and each holds the converted value of the last input entry whose key camel-cases to it |
| Utility.ToCamelKeys | app/helpers/utility.py:202-220 | every dict key at every depth is camel-cased (no separator, no "_") |
| Logging.GetColor | app/helpers/logging.py:24-39 | the member's colour for DEBUG, INFO, WARNING, ERROR and CRITICAL, and 0x369551 for any other name |
| Logging.RecordMessage | app/helpers/logging.py:107-116 | prefers `message`, then the interpolated `msg % args`, then `msg` when the interpolation is suppressed, then None; fails exactly when the formatting raises an exception that is not suppressed |
| Logging.RecordName | app/helpers/logging.py:118-125 | `extra["name"]` when present, else `record.name` |
| Logging.GroupRuns | app/helpers/logging.py:133-137 | groups are non-empty, maximal (neighbouring groups differ in key), and every member carries its group's key |
| Logging.GroupRunsFlatten | app/helpers/logging.py:133-137 | concatenating the groups gives back the queue in order |
| Logging.RecordTexts | app/helpers/logging.py:138-143 | the collected texts are non-empty and no more than the records |
| Logging.RecordTextsFails | app/helpers/logging.py:138-143 | collecting fails exactly when formatting some record's message raises |
| Logging.RecordTextsSkipsMissing | app/helpers/logging.py:138-143 | records without a message are skipped without failing |
| Logging.RecordTextsMessages | app/helpers/logging.py:138-143 | when no formatting raises, the texts are the non-empty messages of the records, in record order, one per record that has one |
| Logging.AddMessages | app/helpers/logging.py:153-154 | adding the wrapped messages changes only the last embed and appends new ones |
| Logging.AddMessagesContent | app/helpers/logging.py:153-154 | every wrapped message reaches the embeds: exactly the fields `add_field` makes of each message are added, message after message |
| Logging.MessagesFieldsHoldMessages | app/helpers/logging.py:153-154 | each message is among the added fields, backticks escaped, in a code block, under the run's name and not inline |
| Logging.NameRunsEmbeds | app/helpers/logging.py:136-154 | a level's builder always yields at least one embed |
| Logging.AddMessagesKeepsHeaders | app/helpers/logging.py:153-154 | adding messages keeps each embed's author and colour |
| Logging.NameRunsKeepHeaders | app/helpers/logging.py:134-154 | every embed of a level's builder has the level's author and colour |
| Logging.LevelEmbedsHeaders | app/helpers/logging.py:134-155 | a level run renders at least one embed, each with the level name as author and the level's colour |
| Logging.RenderRuns | app/helpers/logging.py:132-155 | rendering gives at least one embed per level run |
| Logging.RenderQueueNonEmpty | app/helpers/logging.py:128-155 | a non-empty queue that renders gives at least one embed |
| Logging.RenderQueueFails | app/helpers/logging.py:131-158 | rendering fails exactly when formatting some queued record's message raises |
| Logging.FailsInGroups | app/helpers/logging.py:133-143 | a failing record lies in some run exactly when it lies in the queue |
| Logging.NameRunsFails | app/helpers/logging.py:137-143 | a level run fails exactly when one of its records fails |
| Logging.LevelEmbedsFails | app/helpers/logging.py:134-155 | one level's embeds fail to render exactly when formatting the message of one of its records raises |
| Logging.RenderRunsFails | app/helpers/logging.py:133-155 | rendering the runs fails exactly when one of their records fails |
| Logging.Send | app/helpers/logging.py:97-105 | nothing is sent for no embeds; otherwise the `chunk_embeds` batches are sent in order up to and including the first failure |
| Logging.RemoveFirst | app/helpers/logging.py:83-86 | an absent name leaves the list unchanged; a present one shortens it by one |
| Logging.RemoveFirstCount | app/helpers/logging.py:86 | exactly one occurrence of the name is removed |
| Logging.RemoveFirstTwice | app/helpers/logging.py:79-86 | a name added twice stays suppressed after one removal |
| Logging.WebhookHandler.constructor | app/helpers/logging.py:47-52 | the handler starts with an empty queue and no filters |
| Logging.WebhookHandler.AddFilter | app/helpers/logging.py:79-81 | the name is appended to its level's list, duplicates included; the queue is unchanged; afterwards a record passes exactly when it passed before and does not have that level and name |
| Logging.WebhookHandler.RemoveFilter | app/helpers/logging.py:83-86 | the first occurrence of the name is removed from its level's list; the queue is unchanged; a record with that level and name passes afterwards exactly when the name was listed at most once, and every other record passes as before |
| Logging.WebhookHandler.PassFilter | app/helpers/logging.py:88-90 | a record passes exactly when its name occurs no times in its level's list |
| Logging.WebhookHandler.Add | app/helpers/logging.py:88-95 | the record is appended exactly when `record.name` is not suppressed for `record.levelname`; existing entries and filters are unchanged |
| Logging.WebhookHandler.Emit | app/helpers/logging.py:127-161 | the new queue and the batches sent are those of `EmitOutcome`; the filters are unchanged |
| Logging.EmitQueue | app/helpers/logging.py:127-161 | on a snapshot of the queue, whether it is cleared and the batches sent are those of `EmitOutcome` |
| Logging.RenderAll | app/helpers/logging.py:132-155 | the loop over level runs computes `RenderRuns` |
| Logging.RenderLevel | app/helpers/logging.py:134-155 | one level's builder yields `LevelEmbeds` |
| Logging.AddNameRuns | app/helpers/logging.py:137-154 | the loop over name runs computes `NameRunsEmbeds` |
| Logging.AddNameRun | app/helpers/logging.py:138-154 | one name run collects `RecordTexts` and, on success, adds the wrapped messages |
| Logging.CollectTexts | app/helpers/logging.py:138-143 | the loop computes `RecordTexts` |
| Logging.AddAllMessages | app/helpers/logging.py:153-154 | the loop computes `AddMessages` |
| Logging.EmitEmptyQueue | app/helpers/logging.py:128-129 | `_emit` on an empty queue sends nothing and leaves the queue empty |
| Logging.EmitClearsOnlyOnSuccess | app/helpers/logging.py:131-161 | the queue is either cleared or left exactly as it was; it is cleared exactly when rendering succeeded and every batch was sent |
| Logging.EmitSendsChunksInOrder | app/helpers/logging.py:97-105 | the batches sent are a non-empty prefix of the chunks, in order; every one before the last succeeded; if fewer than all were sent, the last failed |
| Webhooks.InitialCustomization | app/helpers/webhook.py:6-28 | a new client has an empty customisation, the 13 embed properties, and exactly its four attributes |
| Webhooks.CustomizeKeepsAttributeNames | app/helpers/webhook.py:81-87 | `customize` never adds or removes an attribute |
| Webhooks.CustomizeRoutes | app/helpers/webhook.py:81-87 | an argument named after an attribute sets that attribute; any other argument sets that customisation entry; everything else keeps its value |
| Webhooks.CustomizeAllAppend | app/helpers/webhook.py:83-87 | customising with two argument lists in turn is customising with both, in order |
| Webhooks.CustomizeWithCustomization | app/helpers/webhook.py:83-87 | a `customization` argument replaces the whole dict: the arguments before it are routed as `CustomizeRoutes` says, the arguments after it are routed into the new dict |
| Webhooks.FillKeysSpec | app/helpers/webhook.py:100-108 | filling never overwrites a key; it adds exactly the listed keys that are absent and customised, with the customised values |
| Webhooks.CustomizedBody | app/helpers/webhook.py:98-102 | `_customize` keeps every body key's value except "embeds", and adds only `username`/`avatar_url` when absent and customised |
| Webhooks.CustomizedEmbed | app/helpers/webhook.py:104-108 | each embed dict keeps its keys and gains exactly the absent `_embed_properties` keys that are customised |
| Webhooks.FillMissing | app/helpers/webhook.py:100-108 | the fill loop computes `FillKeys` |
| Webhooks.FillEach | app/helpers/webhook.py:105-108 | the loop over embeds fills each as `FillEmbeds` says |
| Webhooks.ReportContent | app/helpers/webhook.py:71-74 | the report is a prefix of the text cut at 2045 characters, followed by "```", so it is 3 to 2048 characters long; a short text is kept whole |
| Webhooks.ContentKept | app/helpers/webhook.py:69-76 | customising a content-only body keeps its content |
| Webhooks.AssembledEmbeds | app/helpers/webhook.py:59-61 | a list embed is used as it is, a single one is wrapped in a one-item list, under "embeds"; other body keys are kept |
| Webhooks.Webhook.constructor | app/helpers/webhook.py:6-28 | the attributes are the initial four |
| Webhooks.Webhook.Customize | app/helpers/webhook.py:81-87 | the attributes become `CustomizeAll` of the old ones, and no attribute is added |
| Webhooks.Webhook.CustomizeBody | app/helpers/webhook.py:89-110 | `_customize` computes `Customized` with the client's customisation and embed properties |
| Webhooks.Webhook.Send | app/helpers/webhook.py:30-63 | without an api, the "setup api" refusal; with an empty body and no embed, "Cannot send empty message"; otherwise the api used and the assembled body, customised unless `is_raw` |
| Webhooks.Webhook.ReportBody | app/helpers/webhook.py:66-77 | an error report exactly for a status other than 200 or 204, and its content is the truncated report |
| Paging.DefaultValuesSpec | app/helpers/paging.py:20-25 | the defaults are exactly the annotated fields with a class value, with that value |
| Paging.FirstUnknown | app/helpers/paging.py:32-36 | None exactly when every argument is annotated or already set; otherwise an argument that is neither |
| Paging.FirstUnknownIsFirst | app/helpers/paging.py:34-36 | the argument reported is the first offending one in argument order: every argument before it is annotated or already set |
| Paging.GetFieldsSpec | app/helpers/paging.py:38-45 | succeeds exactly when every field is given or defaulted; a given value wins; a failure names a field that is neither |
| Paging.GenerateDefaultValues | app/helpers/paging.py:20-25 | the loop computes `Defaults` |
| Paging.CheckRequiredAttributes | app/helpers/paging.py:32-36 | the loop finds `FirstUnknown` |
| Paging.GetAttributes | app/helpers/paging.py:38-45 | the loop computes `GetFields` |
| Paging.New | app/helpers/paging.py:13-18 | the steps of `__init__`, in order, compute `Construct` |
| Paging.ConstructUnknown | app/helpers/paging.py:13-36 | an unknown-attribute error happens exactly when some argument is not an annotated field, and names such an argument |
| Paging.ConstructMissing | app/helpers/paging.py:27-45 | with known arguments, construction succeeds exactly when each field is given, defaulted or a generated id; otherwise it names such a missing field |
| Paging.ConstructFields | app/helpers/paging.py:13-45 | an object holds exactly the annotated fields: the given value, else the generated id, else the class default |
| Paging.DefaultValuesAll | app/helpers/paging.py:20-25 | when every class attribute is annotated, the defaults are those attributes, in order |
| Paging.PagingInfoShape | app/helpers/paging.py:72-85 | every `PagingInfo` field has a default, listed once, and there is no id |
| Paging.PagingInfoDefaults | app/helpers/paging.py:72-85 | `PagingInfo()` is page_count 1, page_number 1, page_size 10, total_record_count 1 |
| Paging.GetFieldsUnchanged | app/helpers/paging.py:38-45 | with all fields defaulted and none given, the defaults are kept |
| Paging.PagingRequiresDataAndPaging | app/helpers/paging.py:88-95 | `Paging(...)` is built exactly when `data` and `paging` are both given and nothing else is |
| Paging.ToResponse | app/helpers/paging.py:97-98 | exactly the keys `data` and `paging` with the object's values; a missing one raises AttributeError naming it |
| Paging.DeepCopyRoundTrip | app/helpers/paging.py:65-66 | deep-copying a constructed object succeeds and gives an equal object |

## Left out

- `LogColor.get_color` on a name that is an attribute of the enum class without being a member (such as "name" or "value") is not modelled; `GetColor` gives the default colour there.
- The `defaultdict` entries that `_pass_filter` and `remove_filter` create for a level without a list are not modelled in `PassFilter`. They hold an empty list and change no answer.
- Records whose `message` or `msg` is not a string are not modelled: messages are strings or absent.
- Logging.RecordName: `extra` is an optional string map. An `extra` that is not subscriptable raises TypeError in `_get_record_name`, because only AttributeError and KeyError are caught; that exception path is not modelled.
- `textwrap.wrap` internals, `discord.Embed.__len__` beyond summing its texts, and the embed timestamp (`utcnow`) are foreign code or clock readings. They are parameters or are left out.
- The `asyncio.sleep` pacing, the aiohttp session and `discord.Webhook.send` in `_send` are I/O. Each send is the parameter `send(batch) -> bool`.
- `emit`, `handleError`, the background queue-clearing thread and its event loop are concurrency and logging plumbing. The race where records queued during a send are cleared too is a concurrency issue and is not modelled.
- The "Record is weird" log line of `_emit` and the exception log are I/O; skipped records and kept queues are modelled.
- `EmbedListBuilder.reply` and `send` are Discord I/O.
- Case conversion maps ASCII letters only; Python's Unicode case mapping and `str.capitalize` on non-ASCII text are not modelled.
- Webhooks.Webhook.CustomizeBody: `_customize` fills the caller's embed dicts in place (aliasing). The model returns new values and does not show that the caller's embeds change.
- Webhooks.Webhook.Send: `send` stores "embeds" into the caller's body dict. The model does not show that mutation of the argument.
- Webhooks.CustomizationOf: a `customization` attribute replaced by a non-dict value is read as an empty customisation; the Python code would fail or behave per that type.
- Webhooks.CustomizeRoutes: leaves aside a `customization` argument, which replaces the dict itself; `CustomizeWithCustomization` states that case.
- Embeds.FormatPage: a custom pagination formatter is given already parsed into literals, `{current}` and `{total}`; format specs, conversions, other fields and the `{{`/`}}` escapes of `str.format` are not modelled.
- Utility.ToCamel: dict keys are strings; a non-string key, on which `camel_case` raises, is not modelled.
- Webhooks.Customized: an "embeds" value that is neither a list nor a tuple is left unchanged, and a list item that is not a dict is left as it is; the Python code would iterate it or fail.
- The HTTP posts of `Webhook.send` (`requests.Session.post`, `response.status_code`, `response.text`) are network I/O. The status and text are parameters of `ReportBody`, and the posted value is the returned body.
- `Base.__getattribute__` and `__setattr__` (Python attribute machinery) are not modelled; fields are read as dict entries. `uuid4` is the parameter `newId`.
- The class attributes that `dir()` lists are given explicitly in a `Schema`, holding only those relevant to the annotations. `deepcopy` of a default value is the value itself, because values here are immutable.
- Paging.Message: `repr` of a key is written with single quotes and no escaping.
- Paging.DeepCopyRoundTrip: equality is Python dict equality (same keys and values); the key order of the copy is not stated.
