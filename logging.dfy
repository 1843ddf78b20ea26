/**
 * The webhook log handler of app/helpers/logging.py: log records are filtered by level and
 * logger name into a queue, and one drain step renders the queue into embeds, grouped by
 * level and then by name, and sends them in webhook-sized batches.
 */
module Logging {
  import opened Wrappers
  import opened Embeds
  import opened Utility

  // LogColor (logging.py:24-39)

  const DEFAULT_COLOR: int := 0x369551
  const INFO_COLOR: int := 0x369551
  const DEBUG_COLOR: int := 0x808080
  const WARNING_COLOR: int := 0xDDBE81
  const ERROR_COLOR: int := 0xD5658A
  const CRITICAL_COLOR: int := 0xC25558

  /** `LogColor.get_color(levelname)`: the member's value, or the default for an unknown name. */
  function GetColor(levelname: string): (c: int)
    ensures levelname == "DEBUG" ==> c == 0x808080
    ensures levelname == "INFO" ==> c == 0x369551
    ensures levelname == "WARNING" ==> c == 0xDDBE81
    ensures levelname == "ERROR" ==> c == 0xD5658A
    ensures levelname == "CRITICAL" ==> c == 0xC25558
    ensures levelname !in {"DEBUG", "INFO", "WARNING", "ERROR", "CRITICAL"} ==> c == 0x369551
  {
    match levelname
    case "DEFAULT" => DEFAULT_COLOR
    case "INFO" => INFO_COLOR
    case "DEBUG" => DEBUG_COLOR
    case "WARNING" => WARNING_COLOR
    case "ERROR" => ERROR_COLOR
    case "CRITICAL" => CRITICAL_COLOR
    case _ => DEFAULT_COLOR
  }

  // Log records

  /** What `record.msg % record.args` does. */
  datatype Interpolation =
    | Interpolated(text: string)  // the formatted string
    | Suppressed                  // AttributeError or TypeError, both suppressed at logging.py:112
    | Raises                      // any other exception (a ValueError from a bad format, say)

  /**
   * The parts of a `logging.LogRecord` the handler reads. `message` is present once a
   * formatter has run; `extra` is the mapping Loguru attaches.
   */
  datatype LogRecord = LogRecord(
    levelname: string,
    name: string,
    message: Option<string>,
    msg: Option<string>,
    interpolation: Interpolation,
    extra: Option<map<string, string>>)

  /** The exception that escapes rendering and makes the drain step keep its queue. */
  datatype EmitError = MessageFormatFailed

  /**
   * `_get_record_message(record)`: `message` if present, else `msg % args`, else `msg`, else
   * None; an exception from the formatting other than the suppressed ones escapes.
   */
  function RecordMessage(r: LogRecord): (m: Result<Option<string>, EmitError>)
    ensures r.message.Some? ==> m == Success(r.message)
    ensures m.Failure? <==> r.message.None? && r.msg.Some? && r.interpolation.Raises?
    ensures r.message.None? && r.msg.None? ==> m == Success(None)
    ensures r.message.None? && r.msg.Some? && r.interpolation.Interpolated? ==> m == Success(Some(r.interpolation.text))
    ensures r.message.None? && r.msg.Some? && r.interpolation.Suppressed? ==> m == Success(r.msg)
  {
    if r.message.Some? then Success(r.message)
    else if r.msg.None? then Success(None)
    else
      match r.interpolation
      case Interpolated(text) => Success(Some(text))
      case Suppressed => Success(r.msg)
      case Raises => Failure(MessageFormatFailed)
  }

  /** `_get_record_name(record)`: `extra["name"]` when there is one, else `record.name`. */
  function RecordName(r: LogRecord): (n: string)
    ensures r.extra.Some? && "name" in r.extra.value ==> n == r.extra.value["name"]
    ensures r.extra.None? || "name" !in r.extra.value ==> n == r.name
  {
    if r.extra.Some? && "name" in r.extra.value then r.extra.value["name"] else r.name
  }

  function LevelOf(r: LogRecord): string {
    r.levelname
  }

  // itertools.groupby (logging.py:133, 137)

  /** `itertools.groupby(xs, key)`: maximal runs of consecutive elements with equal keys. */
  function GroupRuns<T, K(==)>(xs: seq<T>, key: T -> K): (groups: seq<(K, seq<T>)>)
    ensures |groups| <= |xs| && (xs != [] ==> groups != [])
    ensures forall g :: 0 <= g < |groups| ==> groups[g].1 != []
    ensures forall g, i :: 0 <= g < |groups| && 0 <= i < |groups[g].1| ==> key(groups[g].1[i]) == groups[g].0
    ensures forall g :: 0 < g < |groups| ==> groups[g - 1].0 != groups[g].0
    ensures xs != [] ==> groups[0].0 == key(xs[0])
  {
    if xs == [] then []
    else
      var rest := GroupRuns(xs[1..], key);
      if rest != [] && rest[0].0 == key(xs[0]) then [(rest[0].0, [xs[0]] + rest[0].1)] + rest[1..]
      else [(key(xs[0]), [xs[0]])] + rest
  }

  function FlattenGroups<T, K>(groups: seq<(K, seq<T>)>): seq<T> {
    if groups == [] then [] else groups[0].1 + FlattenGroups(groups[1..])
  }

  /** Grouping loses, duplicates and reorders nothing. */
  lemma {:induction false} GroupRunsFlatten<T, K>(xs: seq<T>, key: T -> K)
    ensures FlattenGroups(GroupRuns(xs, key)) == xs
    decreases |xs|
  {
    if xs != [] {
      var rest := GroupRuns(xs[1..], key);
      GroupRunsFlatten(xs[1..], key);
      var groups := GroupRuns(xs, key);
      if rest != [] && rest[0].0 == key(xs[0]) {
        assert groups[1..] == rest[1..];
        assert FlattenGroups(rest) == rest[0].1 + FlattenGroups(rest[1..]);
        assert FlattenGroups(groups) == [xs[0]] + rest[0].1 + FlattenGroups(rest[1..]);
      } else {
        assert groups[1..] == rest;
      }
      assert [xs[0]] + xs[1..] == xs;
    }
  }

  // Rendering (logging.py:131-155)

  /** `"\n".join(texts)`. */
  function JoinLines(texts: seq<string>): string {
    if texts == [] then ""
    else if |texts| == 1 then texts[0]
    else JoinLines(texts[..|texts| - 1]) + "\n" + texts[|texts| - 1]
  }

  /**
   * The texts of a run of records (logging.py:138-143): each record's message when it is a
   * non-empty string; a record with none is skipped; a formatting exception escapes.
   */
  function RecordTexts(records: seq<LogRecord>): (r: Result<seq<string>, EmitError>)
    ensures r.Success? ==> |r.value| <= |records| && forall i :: 0 <= i < |r.value| ==> r.value[i] != ""
  {
    if records == [] then Success([])
    else
      match RecordTexts(records[..|records| - 1])
      case Failure(e) => Failure(e)
      case Success(texts) =>
        match RecordMessage(records[|records| - 1])
        case Failure(e) => Failure(e)
        case Success(m) => if m.Some? && m.value != "" then Success(texts + [m.value]) else Success(texts)
  }

  /** The text a record contributes to its embed: its message, or "" when it has none. */
  function MessageText(r: LogRecord): string {
    match RecordMessage(r)
    case Success(Some(text)) => text
    case _ => ""
  }

  /** `[text for record in records if (text := message(record))]`, read left to right. */
  function Messages(records: seq<LogRecord>): seq<string>
    decreases |records|
  {
    if records == [] then []
    else (if MessageText(records[0]) != "" then [MessageText(records[0])] else []) + Messages(records[1..])
  }

  lemma {:induction false} MessagesSnoc(records: seq<LogRecord>, r: LogRecord)
    ensures Messages(records + [r]) == Messages(records) + (if MessageText(r) != "" then [MessageText(r)] else [])
    decreases |records|
  {
    var tail := if MessageText(r) != "" then [MessageText(r)] else [];
    if records == [] {
      assert [r][1..] == [];
      assert Messages([r]) == tail + Messages([]);
    } else {
      var head := if MessageText(records[0]) != "" then [MessageText(records[0])] else [];
      assert (records + [r])[1..] == records[1..] + [r];
      assert (records + [r])[0] == records[0];
      MessagesSnoc(records[1..], r);
      assert Messages(records + [r]) == head + (Messages(records[1..]) + tail);
      assert head + (Messages(records[1..]) + tail) == (head + Messages(records[1..])) + tail;
    }
  }

  /**
   * When no formatting raises, a run renders to the non-empty messages of its records, in
   * order, one per record that has one.
   */
  lemma {:induction false} RecordTextsMessages(records: seq<LogRecord>)
    ensures (forall i :: 0 <= i < |records| ==> RecordMessage(records[i]).Success?) ==>
              RecordTexts(records) == Success(Messages(records))
    decreases |records|
  {
    if records != [] && forall i :: 0 <= i < |records| ==> RecordMessage(records[i]).Success? {
      var prev := records[..|records| - 1];
      var last := records[|records| - 1];
      assert records == prev + [last];
      forall i | 0 <= i < |prev| ensures RecordMessage(prev[i]).Success? {
        assert prev[i] == records[i];
      }
      RecordTextsMessages(prev);
      MessagesSnoc(prev, last);
      var m := RecordMessage(last).value;
      assert MessageText(last) == if m.Some? then m.value else "";
      assert RecordTexts(records) ==
        if m.Some? && m.value != "" then Success(Messages(prev) + [m.value]) else Success(Messages(prev));
      assert Messages(prev) + [] == Messages(prev);
    }
  }

  /** Rendering a run of records fails exactly when formatting one of their messages raises. */
  lemma {:induction false} RecordTextsFails(records: seq<LogRecord>)
    ensures RecordTexts(records).Failure? <==> exists i :: 0 <= i < |records| && RecordMessage(records[i]).Failure?
    decreases |records|
  {
    if records != [] {
      var prev := records[..|records| - 1];
      RecordTextsFails(prev);
      if exists i :: 0 <= i < |prev| && RecordMessage(prev[i]).Failure? {
        var i :| 0 <= i < |prev| && RecordMessage(prev[i]).Failure?;
        assert records[i] == prev[i];
      }
      if exists i :: 0 <= i < |records| && RecordMessage(records[i]).Failure? {
        var i :| 0 <= i < |records| && RecordMessage(records[i]).Failure?;
        if i < |prev| {
          assert prev[i] == records[i];
        }
      }
    }
  }

  /** Records without a message are skipped: they never make rendering fail. */
  lemma RecordTextsSkipsMissing(records: seq<LogRecord>)
    requires forall i :: 0 <= i < |records| ==> records[i].message.None? && records[i].msg.None?
    ensures RecordTexts(records) == Success([])
  {
    if records != [] {
      RecordTextsSkipsMissing(records[..|records| - 1]);
    }
  }

  /**
   * The embed list after `add_field(name=name, value=message, inline=False, wrap_code=True)`
   * for every message in turn (logging.py:153-154).
   */
  function AddMessages(embeds: seq<Embed>, cfg: BuilderConfig, wrap: Wrapper, name: string, messages: seq<string>)
    : (r: seq<Embed>)
    requires |embeds| > 0
    ensures |r| >= |embeds| && r[..|embeds| - 1] == embeds[..|embeds| - 1]
  {
    if messages == [] then embeds
    else
      var prev := AddMessages(embeds, cfg, wrap, name, messages[..|messages| - 1]);
      var r := AddFieldResult(prev, cfg, wrap, name, messages[|messages| - 1], true, false, true);
      AddFieldKeepsEarlier(prev, cfg, wrap, name, messages[|messages| - 1], true, false, true);
      PrefixOfPrefix(embeds, prev, r.value);
      r.value
  }

  /** The fields the `add_field` calls of logging.py:153-154 add, message after message. */
  function MessagesFields(wrap: Wrapper, name: string, messages: seq<string>): seq<Field> {
    if messages == [] then []
    else MessagesFields(wrap, name, messages[..|messages| - 1]) + AddedFields(wrap, name, messages[|messages| - 1], true, false, true)
  }

  /**
   * Every message reaches the embeds: adding the messages adds, after every field already
   * held, exactly the fields `add_field` makes of each message, in order.
   */
  lemma {:induction false} AddMessagesContent(embeds: seq<Embed>, cfg: BuilderConfig, wrap: Wrapper, name: string,
                                              messages: seq<string>)
    requires |embeds| > 0 && CopiesExtendBase(embeds, cfg)
    ensures var r := AddMessages(embeds, cfg, wrap, name, messages);
            CopiesExtendBase(r, cfg) && Content(r, cfg) == Content(embeds, cfg) + MessagesFields(wrap, name, messages)
    decreases |messages|
  {
    if messages != [] {
      var init := messages[..|messages| - 1];
      var m := messages[|messages| - 1];
      var prev := AddMessages(embeds, cfg, wrap, name, init);
      AddMessagesContent(embeds, cfg, wrap, name, init);
      AddFieldContent(prev, cfg, wrap, name, m, true, false, true);
      SeqAssoc(Content(embeds, cfg), MessagesFields(wrap, name, init), AddedFields(wrap, name, m, true, false, true));
    }
  }

  /**
   * Each message becomes a field under `name` holding the message, backticks escaped, in a
   * code block; every added field is under `name` and not inline.
   */
  lemma {:induction false} MessagesFieldsHoldMessages(wrap: Wrapper, name: string, messages: seq<string>)
    ensures var fs := MessagesFields(wrap, name, messages);
            (forall i :: 0 <= i < |fs| ==> fs[i].name == name && !fs[i].inline) &&
            forall k :: 0 <= k < |messages| ==> Field(name, CodeBlock(EscapeBackticks(messages[k])), false) in fs
    decreases |messages|
  {
    if messages != [] {
      var init := messages[..|messages| - 1];
      var added := AddedFields(wrap, name, messages[|messages| - 1], true, false, true);
      MessagesFieldsHoldMessages(wrap, name, init);
      var fs := MessagesFields(wrap, name, messages);
      assert fs == MessagesFields(wrap, name, init) + added;
      forall k | 0 <= k < |messages| ensures Field(name, CodeBlock(EscapeBackticks(messages[k])), false) in fs {
        if k < |messages| - 1 {
          assert messages[k] == init[k];
        } else {
          assert added[|added| - 1] in fs;
        }
      }
    }
  }

  /** The base embed of a level (logging.py:134-136): its colour, the level as author, nothing else. */
  function BaseEmbed(levelname: string): Embed {
    Embed(None, None, [], None, Some(levelname), GetColor(levelname))
  }

  function LevelConfig(levelname: string): BuilderConfig {
    BuilderConfig(BaseEmbed(levelname), false, FIELD_COUNT_LIMIT)
  }

  /** The embed list of one level's builder after the name runs `groups` (logging.py:137-154). */
  function NameRunsEmbeds(levelname: string, wrap: Wrapper, textWrap: string -> seq<string>,
                          groups: seq<(string, seq<LogRecord>)>): (r: Result<seq<Embed>, EmitError>)
    ensures r.Success? ==> |r.value| > 0
  {
    if groups == [] then Success([BaseEmbed(levelname)])
    else
      match NameRunsEmbeds(levelname, wrap, textWrap, groups[..|groups| - 1])
      case Failure(e) => Failure(e)
      case Success(embeds) =>
        var g := groups[|groups| - 1];
        match RecordTexts(g.1)
        case Failure(e) => Failure(e)
        case Success(texts) => Success(AddMessages(embeds, LevelConfig(levelname), wrap, g.0, textWrap(JoinLines(texts))))
  }

  /** The embeds one level run contributes: its builder's list. */
  function LevelEmbeds(levelname: string, records: seq<LogRecord>, wrap: Wrapper, textWrap: string -> seq<string>)
    : Result<seq<Embed>, EmitError>
  {
    NameRunsEmbeds(levelname, wrap, textWrap, GroupRuns(records, RecordName))
  }

  lemma {:induction false} AddMessagesKeepsHeaders(embeds: seq<Embed>, cfg: BuilderConfig, wrap: Wrapper, name: string,
                                                   messages: seq<string>)
    requires |embeds| > 0 && HeadersFrom(embeds, cfg.base)
    ensures HeadersFrom(AddMessages(embeds, cfg, wrap, name, messages), cfg.base)
    decreases |messages|
  {
    if messages != [] {
      var prev := AddMessages(embeds, cfg, wrap, name, messages[..|messages| - 1]);
      AddMessagesKeepsHeaders(embeds, cfg, wrap, name, messages[..|messages| - 1]);
      AddFieldKeepsHeaders(prev, cfg, wrap, name, messages[|messages| - 1], true, false, true);
    }
  }

  lemma {:induction false} NameRunsKeepHeaders(levelname: string, wrap: Wrapper, textWrap: string -> seq<string>,
                                               groups: seq<(string, seq<LogRecord>)>)
    requires NameRunsEmbeds(levelname, wrap, textWrap, groups).Success?
    ensures HeadersFrom(NameRunsEmbeds(levelname, wrap, textWrap, groups).value, BaseEmbed(levelname))
    decreases |groups|
  {
    if groups != [] {
      var prev := groups[..|groups| - 1];
      NameRunsKeepHeaders(levelname, wrap, textWrap, prev);
      var g := groups[|groups| - 1];
      var texts := RecordTexts(g.1).value;
      AddMessagesKeepsHeaders(NameRunsEmbeds(levelname, wrap, textWrap, prev).value, LevelConfig(levelname), wrap, g.0,
                              textWrap(JoinLines(texts)));
    }
  }

  /**
   * Every embed a level run renders (logging.py:134-136) has the level name as author and the
   * level's colour, and there is at least one.
   */
  lemma LevelEmbedsHeaders(levelname: string, records: seq<LogRecord>, wrap: Wrapper, textWrap: string -> seq<string>)
    requires LevelEmbeds(levelname, records, wrap, textWrap).Success?
    ensures var embeds := LevelEmbeds(levelname, records, wrap, textWrap).value;
            |embeds| > 0 &&
            forall i :: 0 <= i < |embeds| ==> embeds[i].author == Some(levelname) && embeds[i].color == GetColor(levelname)
  {
    NameRunsKeepHeaders(levelname, wrap, textWrap, GroupRuns(records, RecordName));
  }

  /** The embeds of the level runs `groups`, in order, or the first exception. */
  function RenderRuns(wrap: Wrapper, textWrap: string -> seq<string>, groups: seq<(string, seq<LogRecord>)>)
    : (r: Result<seq<Embed>, EmitError>)
    ensures r.Success? ==> |r.value| >= |groups|
  {
    if groups == [] then Success([])
    else
      match RenderRuns(wrap, textWrap, groups[..|groups| - 1])
      case Failure(e) => Failure(e)
      case Success(embeds) =>
        var g := groups[|groups| - 1];
        match LevelEmbeds(g.0, g.1, wrap, textWrap)
        case Failure(e) => Failure(e)
        case Success(more) => Success(embeds + more)
  }

  /** The embeds `_emit` renders from the queue, or the exception that stops it. */
  function RenderQueue(queue: seq<LogRecord>, wrap: Wrapper, textWrap: string -> seq<string>)
    : Result<seq<Embed>, EmitError>
  {
    RenderRuns(wrap, textWrap, GroupRuns(queue, LevelOf))
  }

  /** A non-empty queue that renders gives at least one embed per level run. */
  lemma RenderQueueNonEmpty(queue: seq<LogRecord>, wrap: Wrapper, textWrap: string -> seq<string>)
    requires queue != [] && RenderQueue(queue, wrap, textWrap).Success?
    ensures |RenderQueue(queue, wrap, textWrap).value| >= |GroupRuns(queue, LevelOf)| > 0
  {
  }

  /** Rendering fails exactly when formatting the message of some queued record raises. */
  lemma RenderQueueFails(queue: seq<LogRecord>, wrap: Wrapper, textWrap: string -> seq<string>)
    ensures RenderQueue(queue, wrap, textWrap).Failure? <==>
            exists i :: 0 <= i < |queue| && RecordMessage(queue[i]).Failure?
  {
    var levels := GroupRuns(queue, LevelOf);
    GroupRunsFlatten(queue, LevelOf);
    RenderRunsFails(wrap, textWrap, levels);
    FailsInGroups(levels);
  }

  /** Some record of the runs makes formatting raise. */
  ghost predicate SomeFails(groups: seq<(string, seq<LogRecord>)>) {
    exists g, i :: 0 <= g < |groups| && 0 <= i < |groups[g].1| && RecordMessage(groups[g].1[i]).Failure?
  }

  lemma {:induction false} FailsInGroups(groups: seq<(string, seq<LogRecord>)>)
    ensures SomeFails(groups) <==>
            exists i :: 0 <= i < |FlattenGroups(groups)| && RecordMessage(FlattenGroups(groups)[i]).Failure?
    decreases |groups|
  {
    if groups != [] {
      var flat := FlattenGroups(groups);
      var head := groups[0].1;
      FailsInGroups(groups[1..]);
      assert flat == head + FlattenGroups(groups[1..]);
      if SomeFails(groups) {
        var g, i :| 0 <= g < |groups| && 0 <= i < |groups[g].1| && RecordMessage(groups[g].1[i]).Failure?;
        if g == 0 {
          assert flat[i] == head[i];
        } else {
          assert groups[1..][g - 1] == groups[g];
          var j :| 0 <= j < |FlattenGroups(groups[1..])| && RecordMessage(FlattenGroups(groups[1..])[j]).Failure?;
          assert flat[|head| + j] == FlattenGroups(groups[1..])[j];
        }
      }
      if exists i :: 0 <= i < |flat| && RecordMessage(flat[i]).Failure? {
        var i :| 0 <= i < |flat| && RecordMessage(flat[i]).Failure?;
        if i < |head| {
          assert flat[i] == groups[0].1[i];
        } else {
          assert flat[i] == FlattenGroups(groups[1..])[i - |head|];
          var g, j :| 0 <= g < |groups[1..]| && 0 <= j < |groups[1..][g].1| && RecordMessage(groups[1..][g].1[j]).Failure?;
          assert groups[1..][g] == groups[g + 1];
        }
      }
    }
  }

  lemma {:induction false} NameRunsFails(levelname: string, wrap: Wrapper, textWrap: string -> seq<string>,
                                         groups: seq<(string, seq<LogRecord>)>)
    ensures NameRunsEmbeds(levelname, wrap, textWrap, groups).Failure? <==> SomeFails(groups)
    decreases |groups|
  {
    if groups != [] {
      var prev := groups[..|groups| - 1];
      var g := groups[|groups| - 1];
      assert groups == prev + [g];
      NameRunsFails(levelname, wrap, textWrap, prev);
      RecordTextsFails(g.1);
      SomeFailsSnoc(prev, g);
    }
  }

  lemma SomeFailsSnoc(groups: seq<(string, seq<LogRecord>)>, g: (string, seq<LogRecord>))
    ensures SomeFails(groups + [g]) <==>
            SomeFails(groups) || exists i :: 0 <= i < |g.1| && RecordMessage(g.1[i]).Failure?
  {
    var all := groups + [g];
    if SomeFails(all) {
      var h, i :| 0 <= h < |all| && 0 <= i < |all[h].1| && RecordMessage(all[h].1[i]).Failure?;
      if h < |groups| {
        assert all[h] == groups[h];
      }
    }
    if SomeFails(groups) {
      var h, i :| 0 <= h < |groups| && 0 <= i < |groups[h].1| && RecordMessage(groups[h].1[i]).Failure?;
      assert all[h] == groups[h];
    }
    if exists i :: 0 <= i < |g.1| && RecordMessage(g.1[i]).Failure? {
      var i :| 0 <= i < |g.1| && RecordMessage(g.1[i]).Failure?;
      assert all[|groups|] == g;
    }
  }

  lemma {:induction false} RenderRunsFails(wrap: Wrapper, textWrap: string -> seq<string>,
                                           groups: seq<(string, seq<LogRecord>)>)
    ensures RenderRuns(wrap, textWrap, groups).Failure? <==> SomeFails(groups)
    decreases |groups|
  {
    if groups != [] {
      var prev := groups[..|groups| - 1];
      var g := groups[|groups| - 1];
      assert groups == prev + [g];
      RenderRunsFails(wrap, textWrap, prev);
      LevelEmbedsFails(g.0, g.1, wrap, textWrap);
      SomeFailsSnoc(prev, g);
    }
  }

  /** One level's embeds fail to render exactly when formatting the message of one of its records raises. */
  lemma LevelEmbedsFails(levelname: string, records: seq<LogRecord>, wrap: Wrapper, textWrap: string -> seq<string>)
    ensures LevelEmbeds(levelname, records, wrap, textWrap).Failure? <==>
            exists i :: 0 <= i < |records| && RecordMessage(records[i]).Failure?
  {
    var names := GroupRuns(records, RecordName);
    NameRunsFails(levelname, wrap, textWrap, names);
    GroupRunsFlatten(records, RecordName);
    FailsInGroups(names);
  }

  // Sending (logging.py:97-105)

  /** The batches `_send` hands to the webhook: none for no embeds, else the chunks of `chunk_embeds`. */
  function Batches(embeds: seq<Embed>): seq<seq<Embed>> {
    if embeds == [] then [] else Chunks(embeds)
  }

  /** `send` fails on this batch. */
  function Fails(send: seq<Embed> -> bool): seq<Embed> -> bool {
    (b: seq<Embed>) => !send(b)
  }

  /**
   * `_send(session, embeds)`: one send per batch, in order, stopping at the first that fails.
   * `sent` is every batch handed to the webhook, the failing one included.
   */
  method Send(embeds: seq<Embed>, send: seq<Embed> -> bool) returns (ok: bool, sent: seq<seq<Embed>>)
    ensures var k := FindFirst(Batches(embeds), Fails(send)).0;
            ok == (k == -1) && sent == (if k == -1 then Batches(embeds) else Batches(embeds)[..k + 1])
  {
    sent := [];
    if embeds == [] {
      return true, [];
    }
    var batches := ChunkEmbeds(embeds);
    for i := 0 to |batches|
      invariant sent == batches[..i]
      invariant forall j :: 0 <= j < i ==> send(batches[j])
    {
      sent := sent + [batches[i]];
      if !send(batches[i]) {
        assert forall j :: 0 <= j < i ==> !Fails(send)(batches[j]);
        return false, sent;
      }
    }
    assert batches[..|batches|] == batches;
    ok := true;
  }

  // The handler (logging.py:42-161)

  /** A name removed from a filter list: `list.remove`, which drops the first occurrence only. */
  function RemoveFirst(xs: seq<string>, x: string): (r: seq<string>)
    ensures x !in xs ==> r == xs
    ensures x in xs ==> |r| == |xs| - 1
  {
    if xs == [] then []
    else if xs[0] == x then xs[1..]
    else [xs[0]] + RemoveFirst(xs[1..], x)
  }

  /** Removing takes out exactly one occurrence. */
  lemma {:induction false} RemoveFirstCount(xs: seq<string>, x: string)
    ensures multiset(RemoveFirst(xs, x)) == multiset(xs) - multiset{x}
    decreases |xs|
  {
    if xs != [] {
      assert xs == [xs[0]] + xs[1..];
      if xs[0] != x {
        RemoveFirstCount(xs[1..], x);
      }
    }
  }

  /** A name that occurs twice in a filter list is still in it after one removal. */
  lemma RemoveFirstTwice(xs: seq<string>, x: string)
    requires multiset(xs)[x] >= 2
    ensures x in RemoveFirst(xs, x)
  {
    RemoveFirstCount(xs, x);
    assert multiset(RemoveFirst(xs, x))[x] >= 1;
  }

  class WebhookHandler {
    const webhookUrl: string
    /** `_queue`. */
    var queue: seq<LogRecord>
    /** `_filters`, a `defaultdict(list)`: a level without an entry suppresses nothing. */
    var filters: map<string, seq<string>>

    constructor(webhookUrl: string)
      ensures this.webhookUrl == webhookUrl && queue == [] && filters == map[]
    {
      this.webhookUrl := webhookUrl;
      queue := [];
      filters := map[];
    }

    /** The list of suppressed names of a level. */
    function Suppressed(levelname: string): seq<string>
      reads this
    {
      if levelname in filters then filters[levelname] else []
    }

    /** `add_filter(levelname, name)`: the name is appended, duplicates included. */
    method AddFilter(levelname: string, name: string)
      modifies this
      ensures queue == old(queue)
      ensures filters == old(filters)[levelname := old(Suppressed(levelname)) + [name]]
      ensures forall r: LogRecord {:trigger PassFilter(r)} ::
                PassFilter(r) <==> old(PassFilter(r)) && !(r.levelname == levelname && r.name == name)
    {
      filters := filters[levelname := Suppressed(levelname) + [name]];
    }

    /** `remove_filter(levelname, name)`: one occurrence goes; an absent name changes no list. */
    method RemoveFilter(levelname: string, name: string)
      modifies this
      ensures queue == old(queue)
      ensures filters == old(filters)[levelname := RemoveFirst(old(Suppressed(levelname)), name)]
      ensures forall r: LogRecord {:trigger PassFilter(r)} ::
                PassFilter(r) <==>
                  if r.levelname == levelname && r.name == name then old(multiset(Suppressed(levelname))[name]) <= 1
                  else old(PassFilter(r))
    {
      RemoveFirstCount(Suppressed(levelname), name);
      filters := filters[levelname := RemoveFirst(Suppressed(levelname), name)];
    }

    /** `_pass_filter(record)`: the record's logger name is not suppressed for its level. */
    function PassFilter(r: LogRecord): (b: bool)
      reads this
      ensures b <==> multiset(Suppressed(r.levelname))[r.name] == 0
    {
      r.name !in Suppressed(r.levelname)
    }

    /** `add(record)`: the record is appended exactly when it passes the filter. */
    method Add(r: LogRecord)
      modifies this
      ensures filters == old(filters)
      ensures queue == old(queue) + (if old(PassFilter(r)) then [r] else [])
    {
      if PassFilter(r) {
        queue := queue + [r];
      }
    }

    /**
     * `_emit(session)`: the queue and the batches handed to the webhook are those of
     * `EmitOutcome`; the filters do not change.
     */
    method Emit(wrap: Wrapper, textWrap: string -> seq<string>, send: seq<Embed> -> bool)
      returns (sent: seq<seq<Embed>>)
      modifies this
      ensures filters == old(filters)
      ensures (queue, sent) == EmitOutcome(old(queue), wrap, textWrap, send)
    {
      var cleared;
      cleared, sent := EmitQueue(queue, wrap, textWrap, send);
      if cleared {
        queue := [];
      }
    }
  }

  /**
   * The body of `_emit` on a snapshot of the queue: whether the queue is to be cleared, and
   * the batches handed to the webhook.
   */
  method EmitQueue(pending: seq<LogRecord>, wrap: Wrapper, textWrap: string -> seq<string>, send: seq<Embed> -> bool)
    returns (cleared: bool, sent: seq<seq<Embed>>)
    ensures (if cleared then [] else pending, sent) == EmitOutcome(pending, wrap, textWrap, send)
  {
    sent := [];
    cleared := false;
    if pending == [] {
      return;
    }
    var rendered := RenderAll(wrap, textWrap, GroupRuns(pending, LevelOf));
    assert rendered == RenderQueue(pending, wrap, textWrap);
    if rendered.Failure? {
      return;
    }
    cleared, sent := Send(rendered.value, send);
    EmitOutcomeSent(pending, wrap, textWrap, send, rendered.value, cleared, sent);
  }

  /** The level loop of `_emit` (logging.py:133-155): each level run's embeds, in order. */
  method RenderAll(wrap: Wrapper, textWrap: string -> seq<string>, levels: seq<(string, seq<LogRecord>)>)
    returns (r: Result<seq<Embed>, EmitError>)
    ensures r == RenderRuns(wrap, textWrap, levels)
  {
    var embeds: seq<Embed> := [];
    for i := 0 to |levels|
      invariant RenderRuns(wrap, textWrap, levels[..i]) == Success(embeds)
    {
      var more := RenderLevel(wrap, textWrap, levels[i].0, levels[i].1);
      RenderRunsStep(wrap, textWrap, levels, i);
      if more.Failure? {
        RenderRunsStops(wrap, textWrap, levels, i + 1);
        return Failure(more.error);
      }
      embeds := embeds + more.value;
    }
    assert levels[..|levels|] == levels;
    r := Success(embeds);
  }

  /**
   * What `_emit` leaves: the new queue and the batches handed to the webhook, the failing one
   * included. Nothing happens on an empty queue; a rendering exception sends nothing.
   */
  function EmitOutcome(queue: seq<LogRecord>, wrap: Wrapper, textWrap: string -> seq<string>, send: seq<Embed> -> bool)
    : (seq<LogRecord>, seq<seq<Embed>>)
  {
    if queue == [] then ([], []) else SendOutcome(queue, RenderQueue(queue, wrap, textWrap), send)
  }

  /** What `_emit` leaves once rendering the non-empty queue has given `rendered`. */
  function SendOutcome(queue: seq<LogRecord>, rendered: Result<seq<Embed>, EmitError>, send: seq<Embed> -> bool)
    : (seq<LogRecord>, seq<seq<Embed>>)
  {
    match rendered
    case Failure(_) => (queue, [])
    case Success(embeds) =>
      var batches := Batches(embeds);
      var k := FindFirst(batches, Fails(send)).0;
      if k == -1 then ([], batches) else (queue, batches[..k + 1])
  }

  /** The outcome of `_emit` once the queue has rendered and `_send` has reported. */
  lemma EmitOutcomeSent(queue: seq<LogRecord>, wrap: Wrapper, textWrap: string -> seq<string>, send: seq<Embed> -> bool,
                        embeds: seq<Embed>, ok: bool, sent: seq<seq<Embed>>)
    requires queue != [] && RenderQueue(queue, wrap, textWrap) == Success(embeds)
    requires var k := FindFirst(Batches(embeds), Fails(send)).0;
             ok == (k == -1) && sent == (if k == -1 then Batches(embeds) else Batches(embeds)[..k + 1])
    ensures EmitOutcome(queue, wrap, textWrap, send) == (if ok then [] else queue, sent)
  {
  }

  /** `_emit` on an empty queue sends nothing and leaves the queue empty. */
  lemma EmitEmptyQueue(wrap: Wrapper, textWrap: string -> seq<string>, send: seq<Embed> -> bool)
    ensures EmitOutcome([], wrap, textWrap, send) == ([], [])
  {
  }

  /**
   * The queue is either cleared or left exactly as it was, and it is cleared exactly when
   * rendering succeeded and every batch was sent.
   */
  lemma EmitClearsOnlyOnSuccess(queue: seq<LogRecord>, wrap: Wrapper, textWrap: string -> seq<string>,
                                send: seq<Embed> -> bool)
    requires queue != []
    ensures var after := EmitOutcome(queue, wrap, textWrap, send).0;
            (after == [] || after == queue) &&
            (after == [] <==> RenderQueue(queue, wrap, textWrap).Success? &&
                              forall i :: 0 <= i < |Batches(RenderQueue(queue, wrap, textWrap).value)| ==>
                                send(Batches(RenderQueue(queue, wrap, textWrap).value)[i]))
  {
    var rendered := RenderQueue(queue, wrap, textWrap);
    if rendered.Success? {
      var batches := Batches(rendered.value);
      var k := FindFirst(batches, Fails(send)).0;
      if k != -1 {
        assert !send(batches[k]);
      }
    }
  }

  /**
   * The batches sent are the chunks of the rendered embeds, in order, up to and including the
   * first that fails; every one before it succeeded. A non-empty queue that renders always
   * sends at least one batch.
   */
  lemma EmitSendsChunksInOrder(queue: seq<LogRecord>, wrap: Wrapper, textWrap: string -> seq<string>,
                               send: seq<Embed> -> bool)
    requires queue != [] && RenderQueue(queue, wrap, textWrap).Success?
    ensures var sent := EmitOutcome(queue, wrap, textWrap, send).1;
            var chunks := Chunks(RenderQueue(queue, wrap, textWrap).value);
            0 < |sent| <= |chunks| && sent == chunks[..|sent|] &&
            (forall i :: 0 <= i < |sent| - 1 ==> send(sent[i])) &&
            (|sent| < |chunks| ==> !send(sent[|sent| - 1]))
  {
    var embeds := RenderQueue(queue, wrap, textWrap).value;
    RenderQueueNonEmpty(queue, wrap, textWrap);
    assert EmitOutcome(queue, wrap, textWrap, send) == SendOutcome(queue, Success(embeds), send);
    EmitSentChunks(queue, send, embeds);
  }

  lemma EmitSentChunks(queue: seq<LogRecord>, send: seq<Embed> -> bool, embeds: seq<Embed>)
    requires embeds != []
    ensures var sent := SendOutcome(queue, Success(embeds), send).1;
            var chunks := Chunks(embeds);
            0 < |sent| <= |chunks| && sent == chunks[..|sent|] &&
            (forall i :: 0 <= i < |sent| - 1 ==> send(sent[i])) &&
            (|sent| < |chunks| ==> !send(sent[|sent| - 1]))
  {
    var chunks := Chunks(embeds);
    assert Batches(embeds) == chunks;
    var k := FindFirst(chunks, Fails(send)).0;
    var sent := if k == -1 then chunks else chunks[..k + 1];
    SentPrefix(chunks, send, sent);
  }

  /** Sending up to and including the first failing batch sends a non-empty prefix of the batches. */
  lemma SentPrefix(batches: seq<seq<Embed>>, send: seq<Embed> -> bool, sent: seq<seq<Embed>>)
    requires batches != []
    requires var k := FindFirst(batches, Fails(send)).0;
             sent == if k == -1 then batches else batches[..k + 1]
    ensures 0 < |sent| <= |batches| && sent == batches[..|sent|] &&
            (forall i :: 0 <= i < |sent| - 1 ==> send(sent[i])) &&
            (|sent| < |batches| ==> !send(sent[|sent| - 1]))
  {
    var k := FindFirst(batches, Fails(send)).0;
    if k == -1 {
      assert batches[..|batches|] == batches;
    } else {
      assert Fails(send)(batches[k]);
    }
  }

  /** One more level run rendered. */
  lemma {:induction false} RenderRunsStep(wrap: Wrapper, textWrap: string -> seq<string>,
                                          groups: seq<(string, seq<LogRecord>)>, i: nat)
    requires i < |groups| && RenderRuns(wrap, textWrap, groups[..i]).Success?
    ensures var more := LevelEmbeds(groups[i].0, groups[i].1, wrap, textWrap);
            RenderRuns(wrap, textWrap, groups[..i + 1])
            == if more.Failure? then Failure(more.error)
               else Success(RenderRuns(wrap, textWrap, groups[..i]).value + more.value)
  {
    assert groups[..i + 1][..i] == groups[..i];
  }

  /** One more name run added to a level's builder. */
  lemma {:induction false} NameRunsStep(levelname: string, wrap: Wrapper, textWrap: string -> seq<string>,
                                        groups: seq<(string, seq<LogRecord>)>, i: nat)
    requires i < |groups| && NameRunsEmbeds(levelname, wrap, textWrap, groups[..i]).Success?
    ensures var texts := RecordTexts(groups[i].1);
            NameRunsEmbeds(levelname, wrap, textWrap, groups[..i + 1])
            == if texts.Failure? then Failure(texts.error)
               else Success(AddMessages(NameRunsEmbeds(levelname, wrap, textWrap, groups[..i]).value,
                                        LevelConfig(levelname), wrap, groups[i].0, textWrap(JoinLines(texts.value))))
  {
    assert groups[..i + 1][..i] == groups[..i];
  }

  /** Once rendering a prefix of the level runs fails, rendering them all fails. */
  lemma {:induction false} RenderRunsStops(wrap: Wrapper, textWrap: string -> seq<string>,
                                           groups: seq<(string, seq<LogRecord>)>, n: nat)
    requires n <= |groups| && RenderRuns(wrap, textWrap, groups[..n]).Failure?
    ensures RenderRuns(wrap, textWrap, groups) == RenderRuns(wrap, textWrap, groups[..n])
    decreases |groups| - n
  {
    if n < |groups| {
      assert groups[..n + 1][..n] == groups[..n];
      RenderRunsStops(wrap, textWrap, groups, n + 1);
    } else {
      assert groups[..n] == groups;
    }
  }

  /** Once a prefix of the name runs fails, they all fail. */
  lemma {:induction false} NameRunsStops(levelname: string, wrap: Wrapper, textWrap: string -> seq<string>,
                                         groups: seq<(string, seq<LogRecord>)>, n: nat)
    requires n <= |groups| && NameRunsEmbeds(levelname, wrap, textWrap, groups[..n]).Failure?
    ensures NameRunsEmbeds(levelname, wrap, textWrap, groups) == NameRunsEmbeds(levelname, wrap, textWrap, groups[..n])
    decreases |groups| - n
  {
    if n < |groups| {
      assert groups[..n + 1][..n] == groups[..n];
      NameRunsStops(levelname, wrap, textWrap, groups, n + 1);
    } else {
      assert groups[..n] == groups;
    }
  }

  /** The texts of a run of records (logging.py:138-143), by the loop of the source. */
  method CollectTexts(records: seq<LogRecord>) returns (r: Result<seq<string>, EmitError>)
    ensures r == RecordTexts(records)
  {
    var texts: seq<string> := [];
    for i := 0 to |records|
      invariant RecordTexts(records[..i]) == Success(texts)
    {
      assert records[..i + 1][..i] == records[..i];
      var m := RecordMessage(records[i]);
      if m.Failure? {
        RecordTextsStops(records, i + 1);
        return Failure(m.error);
      }
      if m.value.Some? && m.value.value != "" {
        texts := texts + [m.value.value];
      }
    }
    assert records[..|records|] == records;
    r := Success(texts);
  }

  lemma {:induction false} RecordTextsStops(records: seq<LogRecord>, n: nat)
    requires n <= |records| && RecordTexts(records[..n]).Failure?
    ensures RecordTexts(records).Failure? && RecordTexts(records).error == RecordTexts(records[..n]).error
    decreases |records| - n
  {
    if n < |records| {
      assert records[..n + 1][..n] == records[..n];
      RecordTextsStops(records, n + 1);
    } else {
      assert records[..n] == records;
    }
  }

  /**
   * The body of the level loop of `_emit` (logging.py:134-155): a builder per level, a field
   * per wrapped message of each name run.
   */
  method RenderLevel(wrap: Wrapper, textWrap: string -> seq<string>, levelname: string, records: seq<LogRecord>)
    returns (r: Result<seq<Embed>, EmitError>)
    ensures r == LevelEmbeds(levelname, records, wrap, textWrap)
  {
    var builder := new EmbedListBuilder(BaseEmbed(levelname), false, FIELD_COUNT_LIMIT);
    r := AddNameRuns(builder, levelname, wrap, textWrap, GroupRuns(records, RecordName));
  }

  /** The name loop of one level (logging.py:137-154) on a fresh builder of that level. */
  method AddNameRuns(builder: EmbedListBuilder, levelname: string, wrap: Wrapper, textWrap: string -> seq<string>,
                     names: seq<(string, seq<LogRecord>)>)
    returns (r: Result<seq<Embed>, EmitError>)
    requires builder.Config() == LevelConfig(levelname) && builder.embeds == [BaseEmbed(levelname)]
    modifies builder
    ensures r == NameRunsEmbeds(levelname, wrap, textWrap, names)
  {
    for i := 0 to |names|
      invariant builder.Valid() && builder.Config() == LevelConfig(levelname)
      invariant NameRunsEmbeds(levelname, wrap, textWrap, names[..i]) == Success(builder.embeds)
    {
      NameRunsStep(levelname, wrap, textWrap, names, i);
      var texts := AddNameRun(builder, levelname, wrap, textWrap, names[i].0, names[i].1);
      if texts.Failure? {
        NameRunsStops(levelname, wrap, textWrap, names, i + 1);
        return Failure(texts.error);
      }
    }
    assert names[..|names|] == names;
    r := Success(builder.embeds);
  }

  /** One name run of a level (logging.py:138-154): its texts joined, wrapped and added as fields. */
  method AddNameRun(builder: EmbedListBuilder, levelname: string, wrap: Wrapper, textWrap: string -> seq<string>,
                    name: string, records: seq<LogRecord>)
    returns (texts: Result<seq<string>, EmitError>)
    requires builder.Valid() && builder.Config() == LevelConfig(levelname)
    modifies builder
    ensures builder.Valid() && builder.Config() == LevelConfig(levelname)
    ensures texts == RecordTexts(records)
    ensures texts.Success? ==> builder.embeds == AddMessages(old(builder.embeds), LevelConfig(levelname), wrap, name,
                                                             textWrap(JoinLines(texts.value)))
  {
    texts := CollectTexts(records);
    if texts.Success? {
      AddAllMessages(builder, wrap, name, textWrap(JoinLines(texts.value)));
    }
  }

  /** `for message in messages: add_field(name=name, value=message, inline=False, wrap_code=True)`. */
  method AddAllMessages(builder: EmbedListBuilder, wrap: Wrapper, name: string, messages: seq<string>)
    requires builder.Valid()
    modifies builder
    ensures builder.Valid()
    ensures builder.embeds == AddMessages(old(builder.embeds), builder.Config(), wrap, name, messages)
  {
    for i := 0 to |messages|
      invariant builder.Valid()
      invariant builder.embeds == AddMessages(old(builder.embeds), builder.Config(), wrap, name, messages[..i])
    {
      AddMessagesStep(old(builder.embeds), builder.Config(), wrap, name, messages, i);
      var _ := builder.AddField(wrap, name, messages[i], true, false, true);
    }
    assert messages[..|messages|] == messages;
  }

  /** One more message added: `add_field` with splitting on, which never raises. */
  lemma {:induction false} AddMessagesStep(embeds: seq<Embed>, cfg: BuilderConfig, wrap: Wrapper, name: string,
                                           messages: seq<string>, i: nat)
    requires |embeds| > 0 && i < |messages|
    ensures var prev := AddMessages(embeds, cfg, wrap, name, messages[..i]);
            var r := AddFieldResult(prev, cfg, wrap, name, messages[i], true, false, true);
            r.Success? && AddMessages(embeds, cfg, wrap, name, messages[..i + 1]) == r.value
  {
    assert messages[..i + 1][..i] == messages[..i];
  }
}
