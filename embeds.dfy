/**
 * The embed list builder of app/helpers/embed.py: it packs named text values into a list of
 * Discord embeds, starting a fresh copy of a base embed whenever one of Discord's limits
 * would be broken, and splitting values that are too long for one field.
 */
module Embeds {
  import opened Wrappers
  import opened PyData

  // EmbedLimits

  /** Max length of all text in an embed. */
  const OVERALL_LIMIT: nat := 6000
  /** Max length of the description. */
  const DESCRIPTION_LIMIT: nat := 4096
  /** Max length of one field value. */
  const FIELD_VALUE_LIMIT: nat := 1024
  /** Max number of fields in an embed. */
  const FIELD_COUNT_LIMIT: nat := 25

  datatype Field = Field(name: string, value: string, inline: bool)

  /**
   * The parts of a `discord.Embed` that the builder reads or writes. The timestamp, URLs
   * and images carry no text that counts towards the limits and are not modelled.
   */
  datatype Embed = Embed(
    title: Option<string>,
    description: Option<string>,
    fields: seq<Field>,
    footer: Option<string>,
    author: Option<string>,
    color: int)

  function TextLen(t: Option<string>): nat {
    if t.Some? then |t.value| else 0
  }

  function FieldsLen(fields: seq<Field>): nat {
    if fields == [] then 0
    else FieldsLen(fields[..|fields| - 1]) + |fields[|fields| - 1].name| + |fields[|fields| - 1].value|
  }

  /** `len(embed)`: title, description, every field's name and value, footer text and author name. */
  function Len(e: Embed): nat {
    TextLen(e.title) + TextLen(e.description) + FieldsLen(e.fields) + TextLen(e.footer) + TextLen(e.author)
  }

  /** `embed.add_field(...)`: the field goes after the existing ones. */
  function AppendField(e: Embed, f: Field): (r: Embed)
    ensures r == e.(fields := e.fields + [f])
    ensures Len(r) == Len(e) + |f.name| + |f.value|
  {
    var r := e.(fields := e.fields + [f]);
    assert r.fields[..|r.fields| - 1] == e.fields;
    r
  }

  function Last(embeds: seq<Embed>): Embed
    requires |embeds| > 0
  {
    embeds[|embeds| - 1]
  }

  function ReplaceLast(embeds: seq<Embed>, e: Embed): seq<Embed>
    requires |embeds| > 0
  {
    embeds[..|embeds| - 1] + [e]
  }

  /** What an `EmbedListBuilder` is built from: `base_embed`, `copy_description`, `field_count_limit`. */
  datatype BuilderConfig = BuilderConfig(base: Embed, copyDescription: bool, fieldCountLimit: int)

  /** The embed `_new_embed` appends: a copy of the base, its description dropped unless `copy_description`. */
  function NewCopy(cfg: BuilderConfig): Embed {
    if cfg.copyDescription then cfg.base else cfg.base.(description := None)
  }

  datatype BuildError =
    | ValueTooLong        // ValueError("Value too long for a single field")
    | DescriptionIsNone   // TypeError from len(None) or None += str on a description that is None

  datatype Outcome = Completed | Raised(error: BuildError)

  // Field placement (embed.py:138-147)

  /**
   * Lines 138-147: start a new embed when the latest one holds `field_count_limit` fields,
   * start (another) one when the field would push the latest past 6000 characters, then add
   * the field to the latest embed.
   */
  function Place(embeds: seq<Embed>, cfg: BuilderConfig, f: Field): (r: seq<Embed>)
    requires |embeds| > 0
    ensures |embeds| <= |r| <= |embeds| + 2
    ensures r[..|embeds| - 1] == embeds[..|embeds| - 1]
    ensures Last(r).fields == (if |r| == |embeds| then Last(embeds).fields else cfg.base.fields) + [f]
    ensures |Last(embeds).fields| == cfg.fieldCountLimit ==> |r| > |embeds|
    ensures Len(Last(embeds)) + |f.name| + |f.value| > OVERALL_LIMIT ==> |r| > |embeds|
    ensures |Last(embeds).fields| != cfg.fieldCountLimit && Len(Last(embeds)) + |f.name| + |f.value| <= OVERALL_LIMIT
            ==> r == ReplaceLast(embeds, AppendField(Last(embeds), f))
    ensures |r| > |embeds| ==> Last(r) == AppendField(NewCopy(cfg), f)
    ensures |r| > |embeds| ==> r[|embeds| - 1] == Last(embeds) && (|r| == |embeds| + 2 ==> r[|embeds|] == NewCopy(cfg))
    ensures |r| == |embeds| + 2 <==>
              |Last(embeds).fields| == cfg.fieldCountLimit && Len(NewCopy(cfg)) + |f.name| + |f.value| > OVERALL_LIMIT
  {
    var e1 := if |Last(embeds).fields| == cfg.fieldCountLimit then embeds + [NewCopy(cfg)] else embeds;
    var e2 := if Len(Last(e1)) + |f.name| + |f.value| > OVERALL_LIMIT then e1 + [NewCopy(cfg)] else e1;
    ReplaceLast(e2, AppendField(Last(e2), f))
  }

  /** No embed holds more than `limit` fields. */
  ghost predicate FieldCountsWithin(embeds: seq<Embed>, limit: int) {
    forall i :: 0 <= i < |embeds| ==> |embeds[i].fields| <= limit
  }

  /** The field count limit holds after a placement, provided the base embed has room for a field. */
  lemma PlaceKeepsFieldCounts(embeds: seq<Embed>, cfg: BuilderConfig, f: Field)
    requires |embeds| > 0
    ensures |cfg.base.fields| < cfg.fieldCountLimit && FieldCountsWithin(embeds, cfg.fieldCountLimit)
            ==> FieldCountsWithin(Place(embeds, cfg, f), cfg.fieldCountLimit)
  {
    var limit := cfg.fieldCountLimit;
    if |cfg.base.fields| < limit && FieldCountsWithin(embeds, limit) {
      var e1 := if |Last(embeds).fields| == limit then embeds + [NewCopy(cfg)] else embeds;
      CopyKeepsFieldCounts(embeds, cfg);
      var e2 := if Len(Last(e1)) + |f.name| + |f.value| > OVERALL_LIMIT then e1 + [NewCopy(cfg)] else e1;
      CopyKeepsFieldCounts(e1, cfg);
      assert |Last(e2).fields| < limit;
      assert Place(embeds, cfg, f) == ReplaceLast(e2, AppendField(Last(e2), f));
      ReplaceLastKeepsFieldCounts(e2, AppendField(Last(e2), f), limit);
    }
  }

  lemma CopyKeepsFieldCounts(embeds: seq<Embed>, cfg: BuilderConfig)
    requires |cfg.base.fields| < cfg.fieldCountLimit && FieldCountsWithin(embeds, cfg.fieldCountLimit)
    ensures FieldCountsWithin(embeds + [NewCopy(cfg)], cfg.fieldCountLimit)
  {
    var r := embeds + [NewCopy(cfg)];
    forall i | 0 <= i < |r| ensures |r[i].fields| <= cfg.fieldCountLimit {
      if i < |embeds| {
        assert r[i] == embeds[i];
      }
    }
  }

  lemma ReplaceLastKeepsFieldCounts(embeds: seq<Embed>, e: Embed, limit: int)
    requires |embeds| > 0 && FieldCountsWithin(embeds, limit) && |e.fields| <= limit
    ensures FieldCountsWithin(ReplaceLast(embeds, e), limit)
  {
    var r := ReplaceLast(embeds, e);
    forall i | 0 <= i < |r| ensures |r[i].fields| <= limit {
      if i < |r| - 1 {
        assert r[i] == embeds[i];
      }
    }
  }

  // The text of one field (embed.py:96-101)

  /** `value.replace("`", "\\`")`. */
  function EscapeBackticks(s: string): (r: string)
    ensures |r| == |s| + Backticks(s)
    ensures s != [] ==> r != [] && r[0] != '`'
  {
    if s == [] then []
    else (if s[0] == '`' then "\\`" else [s[0]]) + EscapeBackticks(s[1..])
  }

  /** The number of backticks in `s`. */
  function Backticks(s: string): nat {
    if s == [] then 0 else (if s[0] == '`' then 1 else 0) + Backticks(s[1..])
  }

  /** Reading an escaped text back: "\\`" stands for a backtick, any other character for itself. */
  function Unescape(r: string): string
    decreases |r|
  {
    if r == [] then []
    else if |r| >= 2 && r[0] == '\\' && r[1] == '`' then "`" + Unescape(r[2..])
    else [r[0]] + Unescape(r[1..])
  }

  /** Escaping loses nothing: the escaped text reads back as the original. */
  lemma {:induction false} EscapeRoundTrip(s: string)
    ensures Unescape(EscapeBackticks(s)) == s
    decreases |s|
  {
    if s != [] {
      var rest := EscapeBackticks(s[1..]);
      EscapeRoundTrip(s[1..]);
      if s[0] == '`' {
        var r := "\\`" + rest;
        assert EscapeBackticks(s) == r;
        assert r[2..] == rest;
        assert Unescape(r) == "`" + Unescape(rest);
        assert s == "`" + s[1..];
      } else {
        var r := [s[0]] + rest;
        assert EscapeBackticks(s) == r;
        assert r[1..] == rest;
        assert !(|r| >= 2 && r[0] == '\\' && r[1] == '`');
        assert Unescape(r) == [s[0]] + Unescape(rest);
        assert s == [s[0]] + s[1..];
      }
    }
  }

  /** `f"```\n{value}\n```"`: 8 characters of code-block markers. */
  function CodeBlock(s: string): (r: string)
    ensures |r| == |s| + 8
  {
    "```\n" + s + "\n```"
  }

  /** The text that becomes the field value: the code block when `wrap_code`, else the value itself. */
  function FieldText(v: string, wrapCode: bool): string {
    if wrapCode then CodeBlock(v) else v
  }

  predicate FieldFits(v: string, wrapCode: bool) {
    |FieldText(v, wrapCode)| <= FIELD_VALUE_LIMIT
  }

  // Splitting an oversized value (embed.py:107-134)

  /** Characters a piece loses to wrapping: 8 for a code block, 1 for the newline after a line. */
  function Overhead(wrapCode: bool): nat {
    if wrapCode then 8 else 1
  }

  /** How one wrapped line is appended to the pending piece: bare in a code block, else with a newline. */
  function Rendered(line: string, wrapCode: bool): string {
    if wrapCode then line else line + "\n"
  }

  /** The line boundaries of `str.splitlines`. */
  predicate IsLineBoundary(c: char) {
    var n := c as int;
    c == '\n' || c == '\r' || n == 0x0B || n == 0x0C || n == 0x1C || n == 0x1D || n == 0x1E || n == 0x85 ||
    n == 0x2028 || n == 0x2029
  }

  function LineEnd(s: string): (n: nat)
    ensures n <= |s| && (n < |s| ==> IsLineBoundary(s[n]))
    ensures forall i :: 0 <= i < n ==> !IsLineBoundary(s[i])
  {
    LineEndFrom(s, 0)
  }

  /** The first boundary at or after `k`, when there is none before `k`. */
  function LineEndFrom(s: string, k: nat): (n: nat)
    requires k <= |s|
    requires forall i :: 0 <= i < k ==> !IsLineBoundary(s[i])
    ensures k <= n <= |s| && (n < |s| ==> IsLineBoundary(s[n]))
    ensures forall i :: 0 <= i < n ==> !IsLineBoundary(s[i])
    decreases |s| - k
  {
    if k == |s| || IsLineBoundary(s[k]) then k else LineEndFrom(s, k + 1)
  }

  /** The length of the boundary at `s[n]`: "\r\n" counts as one boundary of two characters. */
  function BreakLen(s: string, n: nat): nat
    requires n < |s|
  {
    if s[n] == '\r' && n + 1 < |s| && s[n + 1] == '\n' then 2 else 1
  }

  /** A line holds no boundary character. */
  predicate NoBoundary(line: string) {
    forall i :: 0 <= i < |line| ==> !IsLineBoundary(line[i])
  }

  /** `str.splitlines()`: the lines without their boundaries; "\r\n" is one boundary. */
  function SplitLines(s: string): (lines: seq<string>)
    ensures forall k :: 0 <= k < |lines| ==> NoBoundary(lines[k])
    ensures lines == [] <==> s == []
    decreases |s|
  {
    if s == [] then []
    else
      var n := LineEnd(s);
      if n == |s| then [s]
      else [s[..n]] + SplitLines(s[n + BreakLen(s, n)..])
  }

  /** The boundary that ends each line of `SplitLines(s)`; the last line may end with the text instead. */
  function LineBreaks(s: string): seq<string>
    decreases |s|
  {
    if s == [] then []
    else
      var n := LineEnd(s);
      if n == |s| then [""]
      else [s[n..n + BreakLen(s, n)]] + LineBreaks(s[n + BreakLen(s, n)..])
  }

  /** `"".join` of each line followed by its boundary: `splitlines(keepends=True)` joined. */
  function JoinKeepEnds(lines: seq<string>, breaks: seq<string>): string
    requires |lines| == |breaks|
  {
    if lines == [] then "" else lines[0] + breaks[0] + JoinKeepEnds(lines[1..], breaks[1..])
  }

  /** A line boundary: "\r\n" or one boundary character. */
  predicate IsBreak(b: string) {
    b == "\r\n" || (|b| == 1 && IsLineBoundary(b[0]))
  }

  lemma SliceJoin<T>(s: seq<T>, a: nat, b: nat)
    requires a <= b <= |s|
    ensures s[..a] + s[a..b] + s[b..] == s
  {
    assert s[..a] + s[a..b] == s[..b];
  }

  /** One more line, ended by a boundary, in front of lines that rejoin. */
  lemma RejoinCons(line: string, brk: string, lines: seq<string>, breaks: seq<string>)
    requires |breaks| == |lines| && IsBreak(brk)
    requires forall i :: 0 <= i < |breaks| ==> IsBreak(breaks[i]) || (i == |breaks| - 1 && breaks[i] == "")
    ensures JoinKeepEnds([line] + lines, [brk] + breaks) == line + brk + JoinKeepEnds(lines, breaks)
    ensures var all := [brk] + breaks;
            forall i :: 0 <= i < |all| ==> IsBreak(all[i]) || (i == |all| - 1 && all[i] == "")
  {
    assert ([line] + lines)[1..] == lines && ([brk] + breaks)[1..] == breaks;
    var all := [brk] + breaks;
    forall i | 0 <= i < |all| ensures IsBreak(all[i]) || (i == |all| - 1 && all[i] == "") {
      if i > 0 {
        assert all[i] == breaks[i - 1];
      }
    }
  }

  /**
   * The lines are the text between its boundaries: each line followed by the boundary that
   * ended it gives back the whole text, and only the last line may end without a boundary.
   */
  lemma {:induction false} SplitLinesRejoin(s: string)
    ensures var lines, breaks := SplitLines(s), LineBreaks(s);
            |breaks| == |lines| && JoinKeepEnds(lines, breaks) == s &&
            forall i :: 0 <= i < |breaks| ==> IsBreak(breaks[i]) || (i == |breaks| - 1 && breaks[i] == "")
    decreases |s|
  {
    if s != [] {
      var n := LineEnd(s);
      if n == |s| {
        assert SplitLines(s) == [s] && LineBreaks(s) == [""];
        assert JoinKeepEnds([s], [""]) == s + "" + JoinKeepEnds([], []);
      } else {
        var k := BreakLen(s, n);
        var rest := s[n + k..];
        SplitLinesRejoin(rest);
        SplitLinesUnfold(s);
        BreakAt(s, n);
        RejoinCons(s[..n], s[n..n + k], SplitLines(rest), LineBreaks(rest));
        SliceJoin(s, n, n + k);
      }
    }
  }

  lemma SplitLinesUnfold(s: string)
    requires s != [] && LineEnd(s) < |s|
    ensures var n := LineEnd(s);
            var k := BreakLen(s, n);
            SplitLines(s) == [s[..n]] + SplitLines(s[n + k..]) && LineBreaks(s) == [s[n..n + k]] + LineBreaks(s[n + k..])
  {
    LinesUnfold(s);
    BreaksUnfold(s);
  }

  lemma LinesUnfold(s: string)
    requires s != [] && LineEnd(s) < |s|
    ensures SplitLines(s) == [s[..LineEnd(s)]] + SplitLines(s[LineEnd(s) + BreakLen(s, LineEnd(s))..])
  {
  }

  lemma BreaksUnfold(s: string)
    requires s != [] && LineEnd(s) < |s|
    ensures var n := LineEnd(s);
            LineBreaks(s) == [s[n..n + BreakLen(s, n)]] + LineBreaks(s[n + BreakLen(s, n)..])
  {
  }

  lemma BreakAt(s: string, n: nat)
    requires n < |s| && IsLineBoundary(s[n])
    ensures IsBreak(s[n..n + BreakLen(s, n)])
  {
  }

  /** Every line `wrap` produces is at most the requested width (textwrap.wrap with break_long_words). */
  ghost predicate WithinWidth(wrap: (string, nat) -> seq<string>) {
    forall s, w, i :: 0 <= i < |wrap(s, w)| ==> |wrap(s, w)[i]| <= w
  }

  /** `textwrap.wrap(text, width=...)` as embed.py:120 calls it; its internals are not modelled. */
  type Wrapper = f: (string, nat) -> seq<string> | WithinWidth(f) witness (s: string, w: nat) => []

  /** Lines 119-120: every line of the value, wrapped to `width`, in order. */
  function WrapLines(lines: seq<string>, wrap: Wrapper, width: nat): (r: seq<string>)
    ensures forall i :: 0 <= i < |r| ==> |r[i]| <= width
  {
    if lines == [] then [] else wrap(lines[0], width) + WrapLines(lines[1..], wrap, width)
  }

  /**
   * Lines 123-134: the values handed to the recursive `add_field` calls. `curr` is the piece
   * being built; a piece is flushed (even an empty one) when the next line would not fit
   * after the overhead, and the last piece is flushed only when it is not empty.
   */
  function Pieces(lines: seq<string>, curr: string, wrapCode: bool): seq<string>
    decreases |lines|
  {
    if lines == [] then (if curr != "" then [curr] else [])
    else
      var flush := |curr| + Overhead(wrapCode) + |lines[0]| > FIELD_VALUE_LIMIT;
      var next := (if flush then "" else curr) + Rendered(lines[0], wrapCode);
      (if flush then [curr] else []) + Pieces(lines[1..], next, wrapCode)
  }

  function Concat(ss: seq<string>): string {
    if ss == [] then "" else ss[0] + Concat(ss[1..])
  }

  lemma {:induction false} ConcatAppend(a: seq<string>, b: seq<string>)
    ensures Concat(a + b) == Concat(a) + Concat(b)
  {
    if a == [] {
      assert a + b == b;
    } else {
      assert (a + b)[0] == a[0];
      assert (a + b)[1..] == a[1..] + b;
      ConcatAppend(a[1..], b);
    }
  }

  function RenderedLines(lines: seq<string>, wrapCode: bool): string {
    if lines == [] then "" else Rendered(lines[0], wrapCode) + RenderedLines(lines[1..], wrapCode)
  }

  /**
   * When every wrapped line fits the width, every piece fits a field, so none of the
   * recursive `add_field(..., split_lines=False)` calls raises.
   */
  lemma {:induction false} PiecesFit(lines: seq<string>, curr: string, wrapCode: bool)
    requires FieldFits(curr, wrapCode)
    requires forall i :: 0 <= i < |lines| ==> |lines[i]| <= FIELD_VALUE_LIMIT - Overhead(wrapCode)
    ensures forall p :: p in Pieces(lines, curr, wrapCode) ==> FieldFits(p, wrapCode)
    decreases |lines|
  {
    if lines != [] {
      var flush := |curr| + Overhead(wrapCode) + |lines[0]| > FIELD_VALUE_LIMIT;
      var next := (if flush then "" else curr) + Rendered(lines[0], wrapCode);
      assert FieldFits(next, wrapCode);
      PiecesFit(lines[1..], next, wrapCode);
    }
  }

  /** Splitting loses and duplicates nothing: the pieces concatenate to the rendered lines. */
  lemma {:induction false} PiecesConcat(lines: seq<string>, curr: string, wrapCode: bool)
    ensures Concat(Pieces(lines, curr, wrapCode)) == curr + RenderedLines(lines, wrapCode)
    decreases |lines|
  {
    if lines != [] {
      var flush := |curr| + Overhead(wrapCode) + |lines[0]| > FIELD_VALUE_LIMIT;
      var next := (if flush then "" else curr) + Rendered(lines[0], wrapCode);
      var rest := Pieces(lines[1..], next, wrapCode);
      var line := Rendered(lines[0], wrapCode);
      var tail := RenderedLines(lines[1..], wrapCode);
      PiecesConcat(lines[1..], next, wrapCode);
      assert Concat(rest) == next + tail;
      assert RenderedLines(lines, wrapCode) == line + tail;
      if flush {
        assert Pieces(lines, curr, wrapCode) == [curr] + rest;
        assert next == line;
        ConcatAppend([curr], rest);
        assert Concat([curr]) == curr;
      } else {
        assert Pieces(lines, curr, wrapCode) == rest;
        assert next == curr + line;
        SeqAssoc(curr, line, tail);
      }
    }
  }

  /** The recursive `add_field` calls of the split path, one `Place` per piece. */
  function PlaceAll(embeds: seq<Embed>, cfg: BuilderConfig, name: string, pieces: seq<string>, inline: bool, wrapCode: bool)
    : (r: seq<Embed>)
    requires |embeds| > 0
    ensures |r| >= |embeds| && r[..|embeds| - 1] == embeds[..|embeds| - 1]
  {
    if pieces == [] then embeds
    else
      var prev := PlaceAll(embeds, cfg, name, pieces[..|pieces| - 1], inline, wrapCode);
      var r := Place(prev, cfg, Field(name, FieldText(pieces[|pieces| - 1], wrapCode), inline));
      PrefixOfPrefix(embeds, prev, r);
      r
  }

  lemma PrefixOfPrefix(a: seq<Embed>, b: seq<Embed>, c: seq<Embed>)
    requires 0 < |a| <= |b| <= |c|
    requires b[..|a| - 1] == a[..|a| - 1] && c[..|b| - 1] == b[..|b| - 1]
    ensures c[..|a| - 1] == a[..|a| - 1]
  {
    assert c[..|a| - 1] == c[..|b| - 1][..|a| - 1];
  }

  lemma {:induction false} PlaceAllKeepsFieldCounts(embeds: seq<Embed>, cfg: BuilderConfig, name: string, pieces: seq<string>,
                                                    inline: bool, wrapCode: bool)
    requires |embeds| > 0 && |cfg.base.fields| < cfg.fieldCountLimit
    requires FieldCountsWithin(embeds, cfg.fieldCountLimit)
    ensures FieldCountsWithin(PlaceAll(embeds, cfg, name, pieces, inline, wrapCode), cfg.fieldCountLimit)
    decreases |pieces|
  {
    if pieces != [] {
      var prev := PlaceAll(embeds, cfg, name, pieces[..|pieces| - 1], inline, wrapCode);
      PlaceAllKeepsFieldCounts(embeds, cfg, name, pieces[..|pieces| - 1], inline, wrapCode);
      PlaceKeepsFieldCounts(prev, cfg, Field(name, FieldText(pieces[|pieces| - 1], wrapCode), inline));
    }
  }

  /** The pieces the split path of `add_field` hands to its recursive calls. */
  function SplitPieces(v: string, wrap: Wrapper, wrapCode: bool): seq<string> {
    Pieces(WrapLines(SplitLines(v), wrap, FIELD_VALUE_LIMIT - Overhead(wrapCode)), "", wrapCode)
  }

  /**
   * `add_field(name, value, split_lines, inline, wrap_code)` on the embed list (lines 94-147),
   * including the fall-through of lines 135-147: after the pieces of an oversized value have
   * been added, the whole value is added as one more field.
   */
  function AddFieldResult(embeds: seq<Embed>, cfg: BuilderConfig, wrap: Wrapper, name: string, value: string,
                          splitLines: bool, inline: bool, wrapCode: bool): (r: Result<seq<Embed>, BuildError>)
    requires |embeds| > 0
    ensures r.Failure? <==> !splitLines && !FieldFits(value, wrapCode)
    ensures r.Failure? ==> r.error == ValueTooLong
    ensures r.Success? ==> |r.value| >= |embeds|
  {
    var v := EscapedValue(value, splitLines, wrapCode);
    if !FieldFits(v, wrapCode) && !splitLines then Failure(ValueTooLong)
    else
      var split := if FieldFits(v, wrapCode) then embeds
                   else PlaceAll(embeds, cfg, name, SplitPieces(v, wrap, wrapCode), inline, wrapCode);
      Success(Place(split, cfg, Field(name, FieldText(v, wrapCode), inline)))
  }

  /** `add_field` changes only the last embed and appends new ones: earlier embeds stay as they were. */
  lemma AddFieldKeepsEarlier(embeds: seq<Embed>, cfg: BuilderConfig, wrap: Wrapper, name: string, value: string,
                             splitLines: bool, inline: bool, wrapCode: bool)
    requires |embeds| > 0
    requires AddFieldResult(embeds, cfg, wrap, name, value, splitLines, inline, wrapCode).Success?
    ensures var r := AddFieldResult(embeds, cfg, wrap, name, value, splitLines, inline, wrapCode).value;
            r[..|embeds| - 1] == embeds[..|embeds| - 1]
  {
    var v := EscapedValue(value, splitLines, wrapCode);
    var split := if FieldFits(v, wrapCode) then embeds
                 else PlaceAll(embeds, cfg, name, SplitPieces(v, wrap, wrapCode), inline, wrapCode);
    var r := Place(split, cfg, Field(name, FieldText(v, wrapCode), inline));
    assert r == AddFieldResult(embeds, cfg, wrap, name, value, splitLines, inline, wrapCode).value;
    PrefixOfPrefix(embeds, split, r);
  }

  /** The value after the escaping of lines 96-97: backticks are escaped only when both flags are set. */
  function EscapedValue(value: string, splitLines: bool, wrapCode: bool): string {
    if wrapCode && splitLines then EscapeBackticks(value) else value
  }

  /** A value that fits, split or not, is placed as exactly one field. */
  lemma AddFieldFitting(embeds: seq<Embed>, cfg: BuilderConfig, wrap: Wrapper, name: string, value: string,
                        splitLines: bool, inline: bool, wrapCode: bool)
    requires |embeds| > 0 && FieldFits(EscapedValue(value, splitLines, wrapCode), wrapCode)
    ensures AddFieldResult(embeds, cfg, wrap, name, value, splitLines, inline, wrapCode)
            == Success(Place(embeds, cfg, Field(name, FieldText(EscapedValue(value, splitLines, wrapCode), wrapCode), inline)))
  {
  }

  // The fields the builder adds (embed.py:94-147)

  /** Every embed after the first starts with the base embed's fields, as a copy of the base does. */
  ghost predicate CopiesExtendBase(embeds: seq<Embed>, cfg: BuilderConfig) {
    forall j :: 1 <= j < |embeds| ==> cfg.base.fields <= embeds[j].fields
  }

  /**
   * The fields the builder holds, in order: those of the first embed, then those every later
   * embed holds beyond the base fields it was copied with.
   */
  function Content(embeds: seq<Embed>, cfg: BuilderConfig): seq<Field>
    requires |embeds| > 0 && CopiesExtendBase(embeds, cfg)
  {
    if |embeds| == 1 then embeds[0].fields
    else Content(embeds[..|embeds| - 1], cfg) + Last(embeds).fields[|cfg.base.fields|..]
  }

  /** A fresh base copy adds no field. */
  lemma CopyContent(embeds: seq<Embed>, cfg: BuilderConfig)
    requires |embeds| > 0 && CopiesExtendBase(embeds, cfg)
    ensures CopiesExtendBase(embeds + [NewCopy(cfg)], cfg)
    ensures Content(embeds + [NewCopy(cfg)], cfg) == Content(embeds, cfg)
  {
    var r := embeds + [NewCopy(cfg)];
    assert r[..|r| - 1] == embeds;
    forall j | 1 <= j < |r| ensures cfg.base.fields <= r[j].fields {
      if j < |embeds| {
        assert r[j] == embeds[j];
      }
    }
    assert Last(r).fields[|cfg.base.fields|..] == [];
  }

  /** Adding a field to the latest embed adds exactly that field, at the end. */
  lemma AppendLastContent(embeds: seq<Embed>, cfg: BuilderConfig, f: Field)
    requires |embeds| > 0 && CopiesExtendBase(embeds, cfg)
    ensures var r := ReplaceLast(embeds, AppendField(Last(embeds), f));
            CopiesExtendBase(r, cfg) && Content(r, cfg) == Content(embeds, cfg) + [f]
  {
    var r := ReplaceLast(embeds, AppendField(Last(embeds), f));
    var fs := Last(embeds).fields;
    assert r[..|r| - 1] == embeds[..|embeds| - 1];
    forall j | 1 <= j < |r| ensures cfg.base.fields <= r[j].fields {
      if j < |r| - 1 {
        assert r[j] == embeds[j];
      } else {
        assert cfg.base.fields <= fs;
        assert r[j].fields == fs + [f];
      }
    }
    if |embeds| > 1 {
      var k := |cfg.base.fields|;
      assert cfg.base.fields <= fs;
      assert (fs + [f])[k..] == fs[k..] + [f];
    }
  }

  /** Placing a field adds exactly that field after all the others, whatever embeds it starts. */
  lemma PlaceContent(embeds: seq<Embed>, cfg: BuilderConfig, f: Field)
    requires |embeds| > 0 && CopiesExtendBase(embeds, cfg)
    ensures CopiesExtendBase(Place(embeds, cfg, f), cfg)
    ensures Content(Place(embeds, cfg, f), cfg) == Content(embeds, cfg) + [f]
  {
    var e1 := if |Last(embeds).fields| == cfg.fieldCountLimit then embeds + [NewCopy(cfg)] else embeds;
    CopyContent(embeds, cfg);
    var e2 := if Len(Last(e1)) + |f.name| + |f.value| > OVERALL_LIMIT then e1 + [NewCopy(cfg)] else e1;
    CopyContent(e1, cfg);
    AppendLastContent(e2, cfg, f);
  }

  /** The fields the recursive calls of the split path add: one per piece, in order. */
  function PieceFields(name: string, pieces: seq<string>, inline: bool, wrapCode: bool): seq<Field> {
    seq(|pieces|, i requires 0 <= i < |pieces| => Field(name, FieldText(pieces[i], wrapCode), inline))
  }

  lemma {:induction false} PlaceAllContent(embeds: seq<Embed>, cfg: BuilderConfig, name: string, pieces: seq<string>,
                                           inline: bool, wrapCode: bool)
    requires |embeds| > 0 && CopiesExtendBase(embeds, cfg)
    ensures var r := PlaceAll(embeds, cfg, name, pieces, inline, wrapCode);
            CopiesExtendBase(r, cfg) && Content(r, cfg) == Content(embeds, cfg) + PieceFields(name, pieces, inline, wrapCode)
    decreases |pieces|
  {
    if pieces == [] {
      assert PieceFields(name, pieces, inline, wrapCode) == [];
    } else {
      var init := pieces[..|pieces| - 1];
      var f := Field(name, FieldText(pieces[|pieces| - 1], wrapCode), inline);
      var prev := PlaceAll(embeds, cfg, name, init, inline, wrapCode);
      assert PlaceAll(embeds, cfg, name, pieces, inline, wrapCode) == Place(prev, cfg, f);
      PlaceAllContent(embeds, cfg, name, init, inline, wrapCode);
      PlaceContent(prev, cfg, f);
      PieceFieldsSnoc(name, pieces, inline, wrapCode);
      SeqAssoc(Content(embeds, cfg), PieceFields(name, init, inline, wrapCode), [f]);
    }
  }

  lemma PieceFieldsSnoc(name: string, pieces: seq<string>, inline: bool, wrapCode: bool)
    requires pieces != []
    ensures PieceFields(name, pieces, inline, wrapCode)
            == PieceFields(name, pieces[..|pieces| - 1], inline, wrapCode) + [Field(name, FieldText(pieces[|pieces| - 1], wrapCode), inline)]
  {
  }

  /**
   * The fields `add_field` adds, in order: for a value too long for one field, a field per
   * split piece, then (the fall-through of lines 135-147) the whole value; for a value that
   * fits, the value alone.
   */
  function AddedFields(wrap: Wrapper, name: string, value: string, splitLines: bool, inline: bool, wrapCode: bool)
    : (r: seq<Field>)
    ensures |r| > 0 && forall i :: 0 <= i < |r| ==> r[i].name == name && r[i].inline == inline
    ensures r[|r| - 1] == Field(name, FieldText(EscapedValue(value, splitLines, wrapCode), wrapCode), inline)
  {
    var v := EscapedValue(value, splitLines, wrapCode);
    (if FieldFits(v, wrapCode) then [] else PieceFields(name, SplitPieces(v, wrap, wrapCode), inline, wrapCode))
    + [Field(name, FieldText(v, wrapCode), inline)]
  }

  /** `add_field` adds exactly `AddedFields` after every field already held, nothing else. */
  lemma AddFieldContent(embeds: seq<Embed>, cfg: BuilderConfig, wrap: Wrapper, name: string, value: string,
                        splitLines: bool, inline: bool, wrapCode: bool)
    requires |embeds| > 0 && CopiesExtendBase(embeds, cfg)
    requires AddFieldResult(embeds, cfg, wrap, name, value, splitLines, inline, wrapCode).Success?
    ensures var r := AddFieldResult(embeds, cfg, wrap, name, value, splitLines, inline, wrapCode).value;
            CopiesExtendBase(r, cfg) &&
            Content(r, cfg) == Content(embeds, cfg) + AddedFields(wrap, name, value, splitLines, inline, wrapCode)
  {
    var v := EscapedValue(value, splitLines, wrapCode);
    var f := Field(name, FieldText(v, wrapCode), inline);
    var pieces := SplitPieces(v, wrap, wrapCode);
    var split := if FieldFits(v, wrapCode) then embeds else PlaceAll(embeds, cfg, name, pieces, inline, wrapCode);
    var added := if FieldFits(v, wrapCode) then [] else PieceFields(name, pieces, inline, wrapCode);
    assert AddFieldResult(embeds, cfg, wrap, name, value, splitLines, inline, wrapCode).value == Place(split, cfg, f);
    assert AddedFields(wrap, name, value, splitLines, inline, wrapCode) == added + [f];
    if FieldFits(v, wrapCode) {
      assert Content(split, cfg) == Content(embeds, cfg) + added;
    } else {
      PlaceAllContent(embeds, cfg, name, pieces, inline, wrapCode);
    }
    PlaceContent(split, cfg, f);
    SeqAssoc(Content(embeds, cfg), added, [f]);
  }

  /** The last step of `PlaceAll`. */
  lemma PlaceAllSnoc(embeds: seq<Embed>, cfg: BuilderConfig, name: string, pieces: seq<string>, p: string,
                     inline: bool, wrapCode: bool)
    requires |embeds| > 0
    ensures PlaceAll(embeds, cfg, name, pieces + [p], inline, wrapCode)
            == Place(PlaceAll(embeds, cfg, name, pieces, inline, wrapCode), cfg, Field(name, FieldText(p, wrapCode), inline))
  {
    assert (pieces + [p])[..|pieces|] == pieces;
  }

  /** Unfolding `Pieces` at position `i` of the lines. */
  lemma PiecesUnfold(lines: seq<string>, i: nat, curr: string, wrapCode: bool)
    requires i < |lines|
    ensures var flush := |curr| + Overhead(wrapCode) + |lines[i]| > FIELD_VALUE_LIMIT;
            var next := (if flush then "" else curr) + Rendered(lines[i], wrapCode);
            Pieces(lines[i..], curr, wrapCode) == (if flush then [curr] else []) + Pieces(lines[i + 1..], next, wrapCode)
  {
    assert lines[i..][0] == lines[i];
    assert lines[i..][1..] == lines[i + 1..];
  }

  /** One step of the packing loop of lines 124-132: the pieces flushed so far plus those still to come. */
  lemma PiecesStep(lines: seq<string>, i: nat, curr: string, flushed: seq<string>, total: seq<string>, wrapCode: bool)
    requires i < |lines| && flushed + Pieces(lines[i..], curr, wrapCode) == total
    ensures var flush := |curr| + Overhead(wrapCode) + |lines[i]| > FIELD_VALUE_LIMIT;
            var next := (if flush then "" else curr) + Rendered(lines[i], wrapCode);
            (flushed + if flush then [curr] else []) + Pieces(lines[i + 1..], next, wrapCode) == total
  {
    PiecesUnfold(lines, i, curr, wrapCode);
    var flush := |curr| + Overhead(wrapCode) + |lines[i]| > FIELD_VALUE_LIMIT;
    var next := (if flush then "" else curr) + Rendered(lines[i], wrapCode);
    SeqAssoc(flushed, if flush then [curr] else [], Pieces(lines[i + 1..], next, wrapCode));
  }

  lemma SeqAssoc<T>(a: seq<T>, b: seq<T>, c: seq<T>)
    ensures a + (b + c) == (a + b) + c
  {
  }

  /**
   * No embed gets more than `field_count_limit` fields, as long as the base embed has room
   * for one.
   */
  lemma AddFieldKeepsFieldCounts(embeds: seq<Embed>, cfg: BuilderConfig, wrap: Wrapper, name: string, value: string,
                                 splitLines: bool, inline: bool, wrapCode: bool)
    requires |embeds| > 0 && |cfg.base.fields| < cfg.fieldCountLimit
    requires FieldCountsWithin(embeds, cfg.fieldCountLimit)
    requires AddFieldResult(embeds, cfg, wrap, name, value, splitLines, inline, wrapCode).Success?
    ensures FieldCountsWithin(AddFieldResult(embeds, cfg, wrap, name, value, splitLines, inline, wrapCode).value,
                              cfg.fieldCountLimit)
  {
    var v := EscapedValue(value, splitLines, wrapCode);
    if !FieldFits(v, wrapCode) {
      PlaceAllKeepsFieldCounts(embeds, cfg, name, SplitPieces(v, wrap, wrapCode), inline, wrapCode);
    }
    var split := if FieldFits(v, wrapCode) then embeds
                 else PlaceAll(embeds, cfg, name, SplitPieces(v, wrap, wrapCode), inline, wrapCode);
    PlaceKeepsFieldCounts(split, cfg, Field(name, FieldText(v, wrapCode), inline));
  }

  /** Every embed shows the author and colour of `base`. */
  ghost predicate HeadersFrom(embeds: seq<Embed>, base: Embed) {
    forall i :: 0 <= i < |embeds| ==> embeds[i].author == base.author && embeds[i].color == base.color
  }

  /** A placement keeps every embed's author and colour those of the base: new embeds are copies of it. */
  lemma PlaceKeepsHeaders(embeds: seq<Embed>, cfg: BuilderConfig, f: Field)
    requires |embeds| > 0 && HeadersFrom(embeds, cfg.base)
    ensures HeadersFrom(Place(embeds, cfg, f), cfg.base)
  {
    var e1 := if |Last(embeds).fields| == cfg.fieldCountLimit then embeds + [NewCopy(cfg)] else embeds;
    CopyKeepsHeaders(embeds, cfg);
    var e2 := if Len(Last(e1)) + |f.name| + |f.value| > OVERALL_LIMIT then e1 + [NewCopy(cfg)] else e1;
    CopyKeepsHeaders(e1, cfg);
    var last := AppendField(Last(e2), f);
    assert Last(e2) == e2[|e2| - 1];
    ReplaceLastKeepsHeaders(e2, last, cfg.base);
    assert Place(embeds, cfg, f) == ReplaceLast(e2, last);
  }

  lemma ReplaceLastKeepsHeaders(embeds: seq<Embed>, e: Embed, base: Embed)
    requires |embeds| > 0 && HeadersFrom(embeds, base) && e.author == base.author && e.color == base.color
    ensures HeadersFrom(ReplaceLast(embeds, e), base)
  {
    var r := ReplaceLast(embeds, e);
    forall i | 0 <= i < |r| ensures r[i].author == base.author && r[i].color == base.color {
      if i < |r| - 1 {
        assert r[i] == embeds[i];
      }
    }
  }

  lemma CopyKeepsHeaders(embeds: seq<Embed>, cfg: BuilderConfig)
    requires HeadersFrom(embeds, cfg.base)
    ensures HeadersFrom(embeds + [NewCopy(cfg)], cfg.base)
  {
    var r := embeds + [NewCopy(cfg)];
    forall i | 0 <= i < |r| ensures r[i].author == cfg.base.author && r[i].color == cfg.base.color {
      if i < |embeds| {
        assert r[i] == embeds[i];
      }
    }
  }

  lemma {:induction false} PlaceAllKeepsHeaders(embeds: seq<Embed>, cfg: BuilderConfig, name: string, pieces: seq<string>,
                                                inline: bool, wrapCode: bool)
    requires |embeds| > 0 && HeadersFrom(embeds, cfg.base)
    ensures HeadersFrom(PlaceAll(embeds, cfg, name, pieces, inline, wrapCode), cfg.base)
    decreases |pieces|
  {
    if pieces != [] {
      var prev := PlaceAll(embeds, cfg, name, pieces[..|pieces| - 1], inline, wrapCode);
      PlaceAllKeepsHeaders(embeds, cfg, name, pieces[..|pieces| - 1], inline, wrapCode);
      PlaceKeepsHeaders(prev, cfg, Field(name, FieldText(pieces[|pieces| - 1], wrapCode), inline));
    }
  }

  /** `add_field` keeps every embed's author and colour those of the base embed. */
  lemma AddFieldKeepsHeaders(embeds: seq<Embed>, cfg: BuilderConfig, wrap: Wrapper, name: string, value: string,
                             splitLines: bool, inline: bool, wrapCode: bool)
    requires |embeds| > 0 && HeadersFrom(embeds, cfg.base)
    requires AddFieldResult(embeds, cfg, wrap, name, value, splitLines, inline, wrapCode).Success?
    ensures HeadersFrom(AddFieldResult(embeds, cfg, wrap, name, value, splitLines, inline, wrapCode).value, cfg.base)
  {
    var v := EscapedValue(value, splitLines, wrapCode);
    if !FieldFits(v, wrapCode) {
      PlaceAllKeepsHeaders(embeds, cfg, name, SplitPieces(v, wrap, wrapCode), inline, wrapCode);
    }
    var split := if FieldFits(v, wrapCode) then embeds
                 else PlaceAll(embeds, cfg, name, SplitPieces(v, wrap, wrapCode), inline, wrapCode);
    PlaceKeepsHeaders(split, cfg, Field(name, FieldText(v, wrapCode), inline));
  }

  /**
   * The split path adds the whole value as its last field as well (lines 135-147), so that
   * field is longer than the field value limit.
   */
  lemma AddFieldKeepsOversizedValue(embeds: seq<Embed>, cfg: BuilderConfig, wrap: Wrapper, name: string, value: string,
                                    inline: bool, wrapCode: bool)
    requires |embeds| > 0
    requires !FieldFits(if wrapCode then EscapeBackticks(value) else value, wrapCode)
    ensures var r := AddFieldResult(embeds, cfg, wrap, name, value, true, inline, wrapCode).value;
            var last := Last(r).fields[|Last(r).fields| - 1];
            last.name == name && |last.value| > FIELD_VALUE_LIMIT
  {
  }

  // Description text (embed.py:149-164)

  /**
   * `add_description_text(value)`: start a new embed when the description would pass 4096
   * characters, and another when the embed would pass 6000, then append "\n" + value to the
   * latest description. A description that is None raises TypeError, before any change when
   * it is the latest embed's, or after the new embeds were appended when it is a fresh copy's.
   */
  function AddDescriptionResult(embeds: seq<Embed>, cfg: BuilderConfig, value: string): (r: (seq<Embed>, Outcome))
    requires |embeds| > 0
    ensures |embeds| <= |r.0| <= |embeds| + 2 && r.0[..|embeds| - 1] == embeds[..|embeds| - 1]
    ensures r.1.Raised? ==> r.1.error == DescriptionIsNone
    ensures Last(embeds).description.None? ==> r == (embeds, Raised(DescriptionIsNone))
    ensures Last(embeds).description.Some? && |Last(embeds).description.value| + 1 + |value| > DESCRIPTION_LIMIT
            ==> |r.0| > |embeds|
    ensures Last(embeds).description.Some? && Len(Last(embeds)) + 1 + |value| > OVERALL_LIMIT ==> |r.0| > |embeds|
    ensures (Last(embeds).description.Some? && |Last(embeds).description.value| + 1 + |value| <= DESCRIPTION_LIMIT &&
             Len(Last(embeds)) + 1 + |value| <= OVERALL_LIMIT) ==> |r.0| == |embeds| && r.1 == Completed
    ensures |r.0| > |embeds| ==> r.0[|embeds| - 1] == Last(embeds) && (|r.0| == |embeds| + 2 ==> r.0[|embeds|] == NewCopy(cfg))
    ensures r.1 == Completed ==>
              var before := if |r.0| == |embeds| then Last(embeds) else NewCopy(cfg);
              before.description.Some? &&
              Last(r.0) == before.(description := Some(before.description.value + "\n" + value)) &&
              TextLen(Last(r.0).description) == TextLen(before.description) + 1 + |value|
    ensures r.1.Raised? <==> Last(embeds).description.None? || (|r.0| > |embeds| && NewCopy(cfg).description.None?)
    ensures |r.0| == |embeds| + 2 <==>
              Last(embeds).description.Some? && |Last(embeds).description.value| + 1 + |value| > DESCRIPTION_LIMIT &&
              Len(NewCopy(cfg)) + 1 + |value| > OVERALL_LIMIT
  {
    var latest := Last(embeds);
    if latest.description.None? then (embeds, Raised(DescriptionIsNone))
    else
      var extra := 1 + |value|;
      var e1 := if |latest.description.value| + extra > DESCRIPTION_LIMIT then embeds + [NewCopy(cfg)] else embeds;
      var e2 := if Len(Last(e1)) + extra > OVERALL_LIMIT then e1 + [NewCopy(cfg)] else e1;
      var target := Last(e2);
      assert e2[..|embeds| - 1] == embeds[..|embeds| - 1];
      if target.description.None? then (e2, Raised(DescriptionIsNone))
      else (ReplaceLast(e2, target.(description := Some(target.description.value + "\n" + value))), Completed)
  }

  /**
   * Without `copy_description`, a description that overflows into a new embed always raises,
   * after the new (description-less) embed has been appended.
   */
  lemma DescriptionOverflowRaises(embeds: seq<Embed>, cfg: BuilderConfig, value: string)
    requires |embeds| > 0 && !cfg.copyDescription
    requires Last(embeds).description.Some?
    requires |Last(embeds).description.value| + 1 + |value| > DESCRIPTION_LIMIT
    ensures var r := AddDescriptionResult(embeds, cfg, value);
            r.1 == Raised(DescriptionIsNone) && |r.0| > |embeds| && Last(r.0).description.None?
  {
  }

  // Footers (embed.py:72-78, 176-179)

  /** A piece of a `str.format` template with the fields `{current}` and `{total}`. */
  datatype FormatPiece = Literal(text: string) | CurrentField | TotalField

  /** The default pagination formatter "{current}/{total}". */
  const DEFAULT_PAGINATION: seq<FormatPiece> := [CurrentField, Literal("/"), TotalField]

  /** `formatter.format(current=current, total=total)`. */
  function FormatPage(formatter: seq<FormatPiece>, current: nat, total: nat): string {
    if formatter == [] then ""
    else
      (match formatter[0]
       case Literal(t) => t
       case CurrentField => Decimal(current)
       case TotalField => Decimal(total))
      + FormatPage(formatter[1..], current, total)
  }

  /** The default formatter reads back as the page number and the page count. */
  lemma DefaultPaginationReadsBack(current: nat, total: nat)
    ensures var text := FormatPage(DEFAULT_PAGINATION, current, total);
            var k := |Decimal(current)|;
            text == Decimal(current) + "/" + Decimal(total) && k < |text| && text[k] == '/' &&
            ParseDecimal(text[..k]) == current && ParseDecimal(text[k + 1..]) == total
  {
    DefaultPaginationText(current, total);
    var d, e := Decimal(current), Decimal(total);
    var text := d + "/" + e;
    var k := |d|;
    assert text[..k] == d;
    assert text[k + 1..] == e;
    DecimalRoundTrip(current);
    DecimalRoundTrip(total);
  }

  lemma DefaultPaginationText(current: nat, total: nat)
    ensures FormatPage(DEFAULT_PAGINATION, current, total) == Decimal(current) + "/" + Decimal(total)
  {
    assert FormatPage([TotalField], current, total) == Decimal(total) + FormatPage([], current, total);
    assert FormatPage([Literal("/"), TotalField], current, total) == "/" + FormatPage([TotalField], current, total);
    assert FormatPage(DEFAULT_PAGINATION, current, total) == Decimal(current) + FormatPage([Literal("/"), TotalField], current, total);
  }

  /**
   * `EmbedListBuilder`: a non-empty list of embeds, the last of which receives new content.
   */
  class EmbedListBuilder {
    const base: Embed
    const copyDescription: bool
    const fieldCountLimit: int
    var embeds: seq<Embed>
    var hasContent: bool

    function Config(): BuilderConfig {
      BuilderConfig(base, copyDescription, fieldCountLimit)
    }

    /** The builder always holds at least one embed. */
    ghost predicate Valid()
      reads this
    {
      |embeds| > 0
    }

    /** `EmbedListBuilder(base_embed, copy_description, field_count_limit=...)`. */
    constructor (base: Embed, copyDescription: bool, fieldCountLimit: int)
      ensures Valid() && embeds == [base] && !hasContent
      ensures this.base == base && this.copyDescription == copyDescription && this.fieldCountLimit == fieldCountLimit
    {
      this.base := base;
      this.copyDescription := copyDescription;
      this.fieldCountLimit := fieldCountLimit;
      embeds := [base];
      hasContent := false;
    }

    /** `latest_embed`: the embed that new content goes to. */
    function LatestEmbed(): (e: Embed)
      reads this
      requires Valid()
      ensures e in embeds && e == Last(embeds)
    {
      embeds[|embeds| - 1]
    }

    /** `_new_embed`: append a copy of the base embed, without its description unless `copy_description`. */
    method NewEmbed()
      requires Valid()
      modifies this
      ensures Valid() && hasContent == old(hasContent)
      ensures embeds == old(embeds) + [NewCopy(Config())]
    {
      var e := base;
      if !copyDescription {
        e := e.(description := None);
      }
      embeds := embeds + [e];
    }

    /** `set_footer(text)`: every embed gets the footer, and nothing else changes. */
    method SetFooter(text: string)
      requires Valid()
      modifies this
      ensures Valid() && hasContent == old(hasContent)
      ensures |embeds| == |old(embeds)|
      ensures forall i :: 0 <= i < |embeds| ==> embeds[i] == old(embeds)[i].(footer := Some(text))
    {
      var i := 0;
      while i < |embeds|
        invariant 0 <= i <= |embeds| == |old(embeds)|
        invariant hasContent == old(hasContent)
        invariant forall j :: 0 <= j < i ==> embeds[j] == old(embeds)[j].(footer := Some(text))
        invariant forall j :: i <= j < |embeds| ==> embeds[j] == old(embeds)[j]
      {
        embeds := embeds[i := embeds[i].(footer := Some(text))];
        i := i + 1;
      }
    }

    /** `add_pagination(formatter)`: embed i (from 1) gets the footer `formatter` of (i, n). */
    method AddPagination(formatter: seq<FormatPiece>)
      requires Valid()
      modifies this
      ensures Valid() && hasContent == old(hasContent)
      ensures |embeds| == |old(embeds)|
      ensures forall i :: 0 <= i < |embeds| ==>
                embeds[i] == old(embeds)[i].(footer := Some(FormatPage(formatter, i + 1, |embeds|)))
    {
      var n := |embeds|;
      var i := 0;
      while i < n
        invariant 0 <= i <= n == |embeds| == |old(embeds)|
        invariant hasContent == old(hasContent)
        invariant forall j :: 0 <= j < i ==> embeds[j] == old(embeds)[j].(footer := Some(FormatPage(formatter, j + 1, n)))
        invariant forall j :: i <= j < n ==> embeds[j] == old(embeds)[j]
      {
        embeds := embeds[i := embeds[i].(footer := Some(FormatPage(formatter, i + 1, n)))];
        i := i + 1;
      }
    }

    /**
     * `add_field(name, value, split_lines, inline, wrap_code)`. The embed list becomes
     * `AddFieldResult` of the old one; when that raises, nothing but `has_content` changes.
     */
    method AddField(wrap: Wrapper, name: string, value: string, splitLines: bool, inline: bool, wrapCode: bool)
      returns (outcome: Outcome)
      requires Valid()
      modifies this
      decreases if splitLines then 2 else 0, 0
      ensures Valid() && hasContent
      ensures var spec := AddFieldResult(old(embeds), Config(), wrap, name, value, splitLines, inline, wrapCode);
              if spec.Success? then outcome == Completed && embeds == spec.value
              else outcome == Raised(spec.error) && embeds == old(embeds)
    {
      hasContent := true;
      var v := EscapedValue(value, splitLines, wrapCode);
      var wrapped := CodeBlock(v);
      var totalLen := if wrapCode then |wrapped| else |v|;
      assert totalLen > FIELD_VALUE_LIMIT <==> !FieldFits(v, wrapCode);
      if totalLen > FIELD_VALUE_LIMIT {
        if !splitLines {
          return Raised(ValueTooLong);
        }
        SplitIntoFields(wrap, name, v, inline, wrapCode);
      }
      if wrapCode {
        v := wrapped;
      }
      PlaceField(Field(name, v, inline));
      outcome := Completed;
    }

    /** Lines 136-147 of `add_field`: start new embeds as needed, then append the field to the latest. */
    method PlaceField(f: Field)
      requires Valid()
      modifies this
      ensures Valid() && hasContent == old(hasContent)
      ensures embeds == Place(old(embeds), Config(), f)
    {
      ghost var e0 := embeds;
      if |embeds[|embeds| - 1].fields| == fieldCountLimit {
        NewEmbed();
      }
      ghost var e1 := embeds;
      assert e1 == if |Last(e0).fields| == fieldCountLimit then e0 + [NewCopy(Config())] else e0;
      if Len(embeds[|embeds| - 1]) + |f.name| + |f.value| > OVERALL_LIMIT {
        NewEmbed();
      }
      assert embeds == if Len(Last(e1)) + |f.name| + |f.value| > OVERALL_LIMIT then e1 + [NewCopy(Config())] else e1;
      embeds := ReplaceLast(embeds, AppendField(Last(embeds), f));
    }

    /**
     * Lines 107-134 of `add_field`: wrap the lines of an oversized value, pack them into
     * pieces that fit a field, and add each piece through `add_field(..., split_lines=False)`,
     * which never raises on them.
     */
    method SplitIntoFields(wrap: Wrapper, name: string, v: string, inline: bool, wrapCode: bool)
      requires Valid() && hasContent
      modifies this
      decreases 1, 0
      ensures Valid() && hasContent
      ensures embeds == PlaceAll(old(embeds), Config(), name, SplitPieces(v, wrap, wrapCode), inline, wrapCode)
    {
      var lines := WrapLines(SplitLines(v), wrap, FIELD_VALUE_LIMIT - Overhead(wrapCode));
      ghost var before := embeds;
      var curr, flushed := PackLines(wrap, name, lines, inline, wrapCode, before);
      if curr != "" {
        AddPiece(wrap, name, curr, inline, wrapCode, before, flushed);
        flushed := flushed + [curr];
      } else {
        assert flushed + [] == flushed;
      }
    }

    /** The loop of lines 123-132 over all wrapped lines; what is left in `curr` is still to be flushed. */
    method PackLines(wrap: Wrapper, name: string, lines: seq<string>, inline: bool, wrapCode: bool, ghost before: seq<Embed>)
      returns (curr: string, ghost flushed: seq<string>)
      requires Valid() && hasContent && embeds == before
      requires forall i :: 0 <= i < |lines| ==> |lines[i]| <= FIELD_VALUE_LIMIT - Overhead(wrapCode)
      modifies this
      decreases 0, 3
      ensures Valid() && hasContent && FieldFits(curr, wrapCode)
      ensures flushed + (if curr != "" then [curr] else []) == Pieces(lines, "", wrapCode)
      ensures embeds == PlaceAll(before, Config(), name, flushed, inline, wrapCode)
    {
      ghost var total := Pieces(lines, "", wrapCode);
      assert lines[0..] == lines;
      curr := "";
      flushed := [];
      var i := 0;
      while i < |lines|
        invariant 0 <= i <= |lines|
        invariant Valid() && hasContent
        invariant FieldFits(curr, wrapCode)
        invariant flushed + Pieces(lines[i..], curr, wrapCode) == total
        invariant embeds == PlaceAll(before, Config(), name, flushed, inline, wrapCode)
      {
        curr, flushed := PackLine(wrap, name, lines, i, curr, inline, wrapCode, before, flushed, total);
        i := i + 1;
      }
      assert lines[i..] == [];
    }

    /** One turn of the loop of lines 124-132: flush the piece if the line does not fit, then append the line. */
    method PackLine(wrap: Wrapper, name: string, lines: seq<string>, i: nat, curr: string, inline: bool, wrapCode: bool,
                    ghost before: seq<Embed>, ghost flushed: seq<string>, ghost total: seq<string>)
      returns (next: string, ghost flushedNext: seq<string>)
      requires Valid() && hasContent && |before| > 0 && i < |lines|
      requires |lines[i]| <= FIELD_VALUE_LIMIT - Overhead(wrapCode) && FieldFits(curr, wrapCode)
      requires flushed + Pieces(lines[i..], curr, wrapCode) == total
      requires embeds == PlaceAll(before, Config(), name, flushed, inline, wrapCode)
      modifies this
      decreases 0, 2
      ensures Valid() && hasContent && FieldFits(next, wrapCode)
      ensures flushedNext + Pieces(lines[i + 1..], next, wrapCode) == total
      ensures embeds == PlaceAll(before, Config(), name, flushedNext, inline, wrapCode)
    {
      PiecesStep(lines, i, curr, flushed, total, wrapCode);
      next := curr;
      flushedNext := flushed;
      if |curr| + Overhead(wrapCode) + |lines[i]| > FIELD_VALUE_LIMIT {
        AddPiece(wrap, name, curr, inline, wrapCode, before, flushed);
        flushedNext := flushed + [curr];
        next := "";
      } else {
        assert flushed + [] == flushed;
      }
      next := next + Rendered(lines[i], wrapCode);
    }

    /** The recursive `add_field(name, split_lines=False, value=curr_value, ...)` of lines 126 and 134. */
    method AddPiece(wrap: Wrapper, name: string, curr: string, inline: bool, wrapCode: bool,
                    ghost before: seq<Embed>, ghost flushed: seq<string>)
      requires Valid() && FieldFits(curr, wrapCode) && |before| > 0
      requires embeds == PlaceAll(before, Config(), name, flushed, inline, wrapCode)
      modifies this
      decreases 0, 1
      ensures Valid() && hasContent
      ensures embeds == PlaceAll(before, Config(), name, flushed + [curr], inline, wrapCode)
    {
      AddFieldFitting(embeds, Config(), wrap, name, curr, false, inline, wrapCode);
      var _ := AddField(wrap, name, curr, false, inline, wrapCode);
      PlaceAllSnoc(before, Config(), name, flushed, curr, inline, wrapCode);
    }

    /**
     * `add_description_text(value)`. The embed list and the outcome are those of
     * `AddDescriptionResult`.
     */
    method AddDescriptionText(value: string) returns (outcome: Outcome)
      requires Valid()
      modifies this
      ensures Valid() && hasContent
      ensures (embeds, outcome) == AddDescriptionResult(old(embeds), Config(), value)
    {
      hasContent := true;
      var additional := 1 + |value|;
      if embeds[|embeds| - 1].description.None? {
        return Raised(DescriptionIsNone);
      }
      if |embeds[|embeds| - 1].description.value| + additional > DESCRIPTION_LIMIT {
        NewEmbed();
      }
      if Len(embeds[|embeds| - 1]) + additional > OVERALL_LIMIT {
        NewEmbed();
      }
      var latest := embeds[|embeds| - 1];
      if latest.description.None? {
        return Raised(DescriptionIsNone);
      }
      embeds := embeds[..|embeds| - 1] + [latest.(description := Some(latest.description.value + "\n" + value))];
      outcome := Completed;
    }
  }
}
