/**
 * The plain webhook client of app/helpers/webhook.py: argument validation and assembly of the
 * JSON body of one webhook call, the per-instance customisation that fills in defaults for the
 * body and its embeds, and the content of the error report posted after a failed call.
 */
module Webhooks {
  import opened Wrappers
  import opened PyData

  /** `_embed_properties` (webhook.py:14-28): the embed keys a customisation may fill in. */
  const EMBED_PROPERTIES: seq<string> := ["title", "type", "description", "url", "timestamp", "color", "footer",
                                          "image", "thumbnail", "video", "provider", "author", "fields"]

  /** The body keys a customisation may fill in (webhook.py:100). */
  const BODY_PROPERTIES: seq<string> := ["username", "avatar_url"]

  /** The instance attributes `__init__` creates, in creation order (webhook.py:9-14). */
  const ATTRIBUTE_NAMES: seq<string> := ["session", "customization", "webhook_api", "_embed_properties"]

  const NO_API_MESSAGE: string := "You have to either setup api or pass the api to the function."
  const EMPTY_MESSAGE: string := "Cannot send empty message"

  /** The content of the error report is cut to this many characters before the closing fence. */
  const REPORT_CUT: nat := 2045
  const REPORT_MENTION: string := "<@128376038605586432>"

  function StringValues(names: seq<string>): (vs: seq<Value>)
    ensures |vs| == |names| && forall i :: 0 <= i < |names| ==> vs[i] == VStr(names[i])
  {
    seq(|names|, i requires 0 <= i < |names| => VStr(names[i]))
  }

  /** The instance `__dict__` right after `Webhook()`. */
  function InitialAttributes(): Dict {
    [("session", VObject("requests.Session")),
     ("customization", VDict([])),
     ("webhook_api", VNone),
     ("_embed_properties", VTuple(StringValues(EMBED_PROPERTIES)))]
  }

  /** An attribute as Python reads it; an attribute that is not there reads as None here. */
  function Attribute(attrs: Dict, name: string): Value {
    if HasKey(attrs, name) then Get(attrs, name) else VNone
  }

  /** `self.customization`, a dict; any other value is read as an empty one. */
  function CustomizationOf(attrs: Dict): Dict {
    match Attribute(attrs, "customization")
    case VDict(d) => d
    case _ => []
  }

  /** The string members of `self._embed_properties`. */
  function EmbedKeysOf(attrs: Dict): seq<string> {
    match Attribute(attrs, "_embed_properties")
    case VTuple(items) => StringsIn(items)
    case VList(items) => StringsIn(items)
    case _ => []
  }

  function StringsIn(items: seq<Value>): (r: seq<string>)
    ensures |r| <= |items|
  {
    if items == [] then []
    else (if items[0].VStr? then [items[0].s] else []) + StringsIn(items[1..])
  }

  lemma {:induction false} StringsInValues(names: seq<string>)
    ensures StringsIn(StringValues(names)) == names
  {
    if names != [] {
      assert StringValues(names)[1..] == StringValues(names[1..]);
      StringsInValues(names[1..]);
    }
  }

  /** A new client customises nothing and fills in exactly the thirteen embed properties. */
  lemma InitialCustomization()
    ensures CustomizationOf(InitialAttributes()) == []
    ensures EmbedKeysOf(InitialAttributes()) == EMBED_PROPERTIES
    ensures Keys(InitialAttributes()) == ATTRIBUTE_NAMES
  {
    var attrs := InitialAttributes();
    assert Keys(attrs) == ATTRIBUTE_NAMES;
    assert Attribute(attrs, "customization") == VDict([]);
    assert Attribute(attrs, "_embed_properties") == VTuple(StringValues(EMBED_PROPERTIES));
    StringsInValues(EMBED_PROPERTIES);
  }

  // customize (webhook.py:81-87)

  /**
   * One keyword argument of `customize`: an existing instance attribute is set, any other key
   * goes into `customization`.
   */
  function CustomizeStep(attrs: Dict, key: string, value: Value): Dict {
    if HasKey(attrs, key) then DictSet(attrs, key, value)
    else DictSet(attrs, "customization", VDict(DictSet(CustomizationOf(attrs), key, value)))
  }

  /** The instance `__dict__` after `customize(**kwargs)`, the arguments taken in order. */
  function CustomizeAll(attrs: Dict, kwargs: Dict): Dict {
    if kwargs == [] then attrs
    else
      var last := kwargs[|kwargs| - 1];
      CustomizeStep(CustomizeAll(attrs, kwargs[..|kwargs| - 1]), last.0, last.1)
  }

  /** `customize` never adds or removes an instance attribute, nor moves one. */
  lemma {:induction false} CustomizeKeepsAttributeNames(attrs: Dict, kwargs: Dict)
    requires HasKey(attrs, "customization")
    ensures Keys(CustomizeAll(attrs, kwargs)) == Keys(attrs)
    decreases |kwargs|
  {
    if kwargs != [] {
      var prev := CustomizeAll(attrs, kwargs[..|kwargs| - 1]);
      CustomizeKeepsAttributeNames(attrs, kwargs[..|kwargs| - 1]);
      var last := kwargs[|kwargs| - 1];
      DictSetKeepsKeys(prev, if HasKey(prev, last.0) then last.0 else "customization",
                       if HasKey(prev, last.0) then last.1 else VDict(DictSet(CustomizationOf(prev), last.0, last.1)));
    }
  }

  /** Setting a key that is present keeps the key sequence. */
  lemma DictSetKeepsKeys(d: Dict, k: string, v: Value)
    requires HasKey(d, k)
    ensures Keys(DictSet(d, k, v)) == Keys(d)
  {
  }

  /** What `CustomizeRoutes` promises about the instance `__dict__` `r` after the arguments `kwargs`. */
  ghost predicate Routed(attrs: Dict, kwargs: Dict, r: Dict) {
    (forall i :: 0 <= i < |kwargs| && HasKey(attrs, kwargs[i].0) ==>
       HasKey(r, kwargs[i].0) && Get(r, kwargs[i].0) == kwargs[i].1) &&
    (forall i :: 0 <= i < |kwargs| && !HasKey(attrs, kwargs[i].0) ==>
       HasKey(CustomizationOf(r), kwargs[i].0) && Get(CustomizationOf(r), kwargs[i].0) == kwargs[i].1) &&
    (forall k :: HasKey(attrs, k) && k != "customization" && !HasKey(kwargs, k) ==>
       HasKey(r, k) && Get(r, k) == Get(attrs, k)) &&
    (forall k :: HasKey(CustomizationOf(attrs), k) && !HasKey(kwargs, k) ==>
       HasKey(CustomizationOf(r), k) && Get(CustomizationOf(r), k) == Get(CustomizationOf(attrs), k))
  }

  /**
   * Where `customize` puts each argument: an attribute name sets that attribute, any other
   * key sets that entry of `customization`; other attributes and other customisation entries
   * keep their values. (A `customization` argument, which replaces the dict itself, is the
   * subject of `CustomizeWithCustomization`.)
   */
  lemma {:induction false} CustomizeRoutes(attrs: Dict, kwargs: Dict)
    requires HasKey(attrs, "customization") && DistinctKeys(kwargs) && !HasKey(kwargs, "customization")
    ensures Routed(attrs, kwargs, CustomizeAll(attrs, kwargs))
    decreases |kwargs|
  {
    if kwargs != [] {
      var n := |kwargs|;
      var front := kwargs[..n - 1];
      var (k, v) := kwargs[n - 1];
      assert kwargs == front + [(k, v)];
      HasKeySnoc(front, (k, v));
      assert !HasKey(front, k);
      CustomizeRoutes(attrs, front);
      var prev := CustomizeAll(attrs, front);
      CustomizeKeepsAttributeNames(attrs, front);
      assert forall x :: HasKey(prev, x) <==> HasKey(attrs, x);
      if HasKey(attrs, k) {
        RouteAttribute(attrs, front, prev, k, v);
      } else {
        RouteCustomization(attrs, front, prev, k, v);
      }
    }
  }

  /** Customising with two argument lists in turn is customising with both at once. */
  lemma {:induction false} CustomizeAllAppend(attrs: Dict, a: Dict, b: Dict)
    ensures CustomizeAll(attrs, a + b) == CustomizeAll(CustomizeAll(attrs, a), b)
    decreases |b|
  {
    if b == [] {
      assert a + b == a;
    } else {
      var front := b[..|b| - 1];
      assert (a + b)[..|a + b| - 1] == a + front;
      assert (a + b)[|a + b| - 1] == b[|b| - 1];
      CustomizeAllAppend(attrs, a, front);
    }
  }

  /**
   * A `customization` argument is an instance attribute, so it replaces the whole dict: the
   * arguments before it are routed as `CustomizeRoutes` says (their customisation entries go
   * with the old dict), the new dict is `v`, and the arguments after it are routed into it.
   */
  lemma CustomizeWithCustomization(attrs: Dict, front: Dict, v: Value, back: Dict)
    requires HasKey(attrs, "customization") && DistinctKeys(front + [("customization", v)] + back)
    ensures var before := CustomizeAll(attrs, front);
            var mid := DictSet(before, "customization", v);
            Routed(attrs, front, before) &&
            CustomizeAll(attrs, front + [("customization", v)] + back) == CustomizeAll(mid, back) &&
            Routed(mid, back, CustomizeAll(mid, back))
  {
    var before := CustomizeAll(attrs, front);
    var mid := DictSet(before, "customization", v);
    SplitAtCustomization(front, v, back);
    CustomizeRoutes(attrs, front);
    CustomizeKeepsAttributeNames(attrs, front);
    assert HasKey(before, "customization");
    assert CustomizeAll(attrs, front + [("customization", v)]) == mid by {
      assert (front + [("customization", v)])[..|front|] == front;
    }
    CustomizeAllAppend(attrs, front + [("customization", v)], back);
    CustomizeRoutes(mid, back);
  }

  /** The arguments on either side of a `customization` argument are distinct and hold no other one. */
  lemma SplitAtCustomization(front: Dict, v: Value, back: Dict)
    requires DistinctKeys(front + [("customization", v)] + back)
    ensures DistinctKeys(front) && !HasKey(front, "customization")
    ensures DistinctKeys(back) && !HasKey(back, "customization")
  {
    var kwargs := front + [("customization", v)] + back;
    forall i, j | 0 <= i < j < |front| ensures front[i].0 != front[j].0 {
      assert front[i] == kwargs[i] && front[j] == kwargs[j];
    }
    forall i | 0 <= i < |front| ensures front[i].0 != "customization" {
      assert front[i] == kwargs[i] && kwargs[|front|].0 == "customization";
    }
    forall i, j | 0 <= i < j < |back| ensures back[i].0 != back[j].0 {
      assert back[i] == kwargs[|front| + 1 + i] && back[j] == kwargs[|front| + 1 + j];
    }
    forall i | 0 <= i < |back| ensures back[i].0 != "customization" {
      assert back[i] == kwargs[|front| + 1 + i] && kwargs[|front|].0 == "customization";
    }
  }

  lemma RouteAttribute(attrs: Dict, front: Dict, prev: Dict, k: string, v: Value)
    requires HasKey(attrs, "customization") && k != "customization" && HasKey(attrs, k)
    requires forall x :: HasKey(prev, x) <==> HasKey(attrs, x)
    requires forall x :: HasKey(front + [(k, v)], x) <==> HasKey(front, x) || x == k
    requires DistinctKeys(front + [(k, v)]) && !HasKey(front, k) && !HasKey(front, "customization")
    requires Routed(attrs, front, prev)
    ensures Routed(attrs, front + [(k, v)], CustomizeStep(prev, k, v))
  {
    var kwargs := front + [(k, v)];
    var r := CustomizeStep(prev, k, v);
    assert r == DictSet(prev, k, v);
    assert CustomizationOf(r) == CustomizationOf(prev);
    forall i | 0 <= i < |kwargs| && HasKey(attrs, kwargs[i].0)
      ensures HasKey(r, kwargs[i].0) && Get(r, kwargs[i].0) == kwargs[i].1
    {
      if i < |front| {
        assert kwargs[i] == front[i];
      }
    }
    forall i | 0 <= i < |kwargs| && !HasKey(attrs, kwargs[i].0)
      ensures HasKey(CustomizationOf(r), kwargs[i].0) && Get(CustomizationOf(r), kwargs[i].0) == kwargs[i].1
    {
      assert kwargs[i] == front[i];
    }
  }

  lemma RouteCustomization(attrs: Dict, front: Dict, prev: Dict, k: string, v: Value)
    requires HasKey(attrs, "customization") && k != "customization" && !HasKey(attrs, k)
    requires forall x :: HasKey(prev, x) <==> HasKey(attrs, x)
    requires forall x :: HasKey(front + [(k, v)], x) <==> HasKey(front, x) || x == k
    requires DistinctKeys(front + [(k, v)]) && !HasKey(front, k) && !HasKey(front, "customization")
    requires Routed(attrs, front, prev)
    ensures Routed(attrs, front + [(k, v)], CustomizeStep(prev, k, v))
  {
    var kwargs := front + [(k, v)];
    var c := DictSet(CustomizationOf(prev), k, v);
    var r := CustomizeStep(prev, k, v);
    assert r == DictSet(prev, "customization", VDict(c));
    assert CustomizationOf(r) == c;
    forall i | 0 <= i < |kwargs| && HasKey(attrs, kwargs[i].0)
      ensures HasKey(r, kwargs[i].0) && Get(r, kwargs[i].0) == kwargs[i].1
    {
      assert kwargs[i] == front[i];
    }
    forall i | 0 <= i < |kwargs| && !HasKey(attrs, kwargs[i].0)
      ensures HasKey(c, kwargs[i].0) && Get(c, kwargs[i].0) == kwargs[i].1
    {
      if i < |front| {
        assert kwargs[i] == front[i];
      }
    }
  }

  // _customize (webhook.py:89-110)

  /** `for key in keys: if key not in d and key in source: d[key] = source[key]`. */
  function FillKeys(d: Dict, keys: seq<string>, source: Dict): Dict {
    if keys == [] then d
    else
      var prev := FillKeys(d, keys[..|keys| - 1], source);
      var k := keys[|keys| - 1];
      if !HasKey(prev, k) && HasKey(source, k) then DictSet(prev, k, Get(source, k)) else prev
  }

  /**
   * Filling never overwrites: a key already present keeps its value, and the keys added are
   * exactly the listed keys that are absent and that the source has, each with the source's
   * value.
   */
  lemma {:induction false} FillKeysSpec(d: Dict, keys: seq<string>, source: Dict)
    ensures var r := FillKeys(d, keys, source);
            (forall k :: HasKey(r, k) <==> HasKey(d, k) || (k in keys && HasKey(source, k))) &&
            (forall k :: HasKey(d, k) ==> Get(r, k) == Get(d, k)) &&
            (forall k :: !HasKey(d, k) && k in keys && HasKey(source, k) ==> Get(r, k) == Get(source, k)) &&
            (DistinctKeys(d) ==> DistinctKeys(r))
    decreases |keys|
  {
    if keys != [] {
      var front := keys[..|keys| - 1];
      FillKeysSpec(d, front, source);
      assert keys == front + [keys[|keys| - 1]];
    }
  }

  /** One embed after `_customize`: a dict has its missing properties filled in. */
  function FillEmbed(e: Value, keys: seq<string>, source: Dict): Value {
    if e.VDict? then VDict(FillKeys(e.entries, keys, source)) else e
  }

  function FillEmbeds(items: seq<Value>, keys: seq<string>, source: Dict): (r: seq<Value>)
    ensures |r| == |items| && forall i :: 0 <= i < |items| ==> r[i] == FillEmbed(items[i], keys, source)
  {
    seq(|items|, i requires 0 <= i < |items| => FillEmbed(items[i], keys, source))
  }

  /**
   * `_customize(body)`: a copy of the body with `username` and `avatar_url` filled in from the
   * customisation, and each embed of `body["embeds"]` with its missing properties filled in.
   */
  function Customized(body: Dict, custom: Dict, embedKeys: seq<string>): Dict {
    var b := FillKeys(body, BODY_PROPERTIES, custom);
    if HasKey(b, "embeds") then
      match Get(b, "embeds")
      case VList(items) => DictSet(b, "embeds", VList(FillEmbeds(items, embedKeys, custom)))
      case VTuple(items) => DictSet(b, "embeds", VTuple(FillEmbeds(items, embedKeys, custom)))
      case _ => b
    else b
  }

  /**
   * `_customize` never overwrites: every key of the body keeps its value, except that the
   * embeds under "embeds" gain properties; the only keys added to the body are `username` and
   * `avatar_url`, when absent and customised.
   */
  lemma CustomizedBody(body: Dict, custom: Dict, embedKeys: seq<string>)
    ensures var r := Customized(body, custom, embedKeys);
            (forall k :: HasKey(r, k) <==> HasKey(body, k) || (k in BODY_PROPERTIES && HasKey(custom, k))) &&
            (forall k :: HasKey(body, k) && k != "embeds" ==> Get(r, k) == Get(body, k)) &&
            (forall k :: !HasKey(body, k) && k in BODY_PROPERTIES && HasKey(custom, k) ==> Get(r, k) == Get(custom, k))
  {
    FillKeysSpec(body, BODY_PROPERTIES, custom);
    CustomizedEmbedsOnly(body, custom, embedKeys);
  }

  /** Filling the embeds changes no key of the filled body, and no value but that of "embeds". */
  lemma CustomizedEmbedsOnly(body: Dict, custom: Dict, embedKeys: seq<string>)
    ensures var b := FillKeys(body, BODY_PROPERTIES, custom);
            var r := Customized(body, custom, embedKeys);
            (forall k :: HasKey(r, k) <==> HasKey(b, k)) &&
            (forall k :: HasKey(b, k) && k != "embeds" ==> Get(r, k) == Get(b, k))
  {
  }

  /**
   * Each embed dict under "embeds" keeps every key it had, and gains exactly the listed
   * properties it lacked that the customisation has, with the customised values.
   */
  lemma CustomizedEmbed(body: Dict, custom: Dict, embedKeys: seq<string>, i: nat)
    requires HasKey(body, "embeds") && (Get(body, "embeds").VList? || Get(body, "embeds").VTuple?)
    requires i < |Get(body, "embeds").items| && Get(body, "embeds").items[i].VDict?
    ensures var r := Customized(body, custom, embedKeys);
            var e := Get(body, "embeds").items[i].entries;
            HasKey(r, "embeds") && (Get(r, "embeds").VList? || Get(r, "embeds").VTuple?) &&
            i < |Get(r, "embeds").items| && Get(r, "embeds").items[i].VDict? &&
            var f := Get(r, "embeds").items[i].entries;
            (forall k :: HasKey(f, k) <==> HasKey(e, k) || (k in embedKeys && HasKey(custom, k))) &&
            (forall k :: HasKey(e, k) ==> Get(f, k) == Get(e, k)) &&
            (forall k :: !HasKey(e, k) && k in embedKeys && HasKey(custom, k) ==> Get(f, k) == Get(custom, k))
  {
    FillKeysSpec(body, BODY_PROPERTIES, custom);
    var e := Get(body, "embeds").items[i].entries;
    FillKeysSpec(e, embedKeys, custom);
  }

  /** The `_customize` loops (webhook.py:100-108), filling one missing key at a time. */
  method FillMissing(d: Dict, keys: seq<string>, source: Dict) returns (r: Dict)
    ensures r == FillKeys(d, keys, source)
  {
    r := d;
    for i := 0 to |keys|
      invariant r == FillKeys(d, keys[..i], source)
    {
      assert keys[..i + 1][..i] == keys[..i];
      if !HasKey(r, keys[i]) && HasKey(source, keys[i]) {
        r := DictSet(r, keys[i], Get(source, keys[i]));
      }
    }
    assert keys[..|keys|] == keys;
  }

  /** `for embed in embeds: ...` (webhook.py:105-108), each embed dict filled in turn. */
  method FillEach(items: seq<Value>, keys: seq<string>, source: Dict) returns (filled: seq<Value>)
    ensures filled == FillEmbeds(items, keys, source)
  {
    filled := [];
    for i := 0 to |items|
      invariant filled == FillEmbeds(items[..i], keys, source)
    {
      var e := items[i];
      if e.VDict? {
        var entries := FillMissing(e.entries, keys, source);
        e := VDict(entries);
      }
      filled := filled + [e];
    }
    assert items[..|items|] == items;
  }

  // The error report (webhook.py:66-77)

  /** The report text before it is cut: the mention, the status and the response text. */
  function ReportText(status: nat, text: string): string {
    REPORT_MENTION + " **" + Decimal(status) + "** - ```json\n" + text + "'"
  }

  /** The `content` of the error report: the text cut to 2045 characters, then a closing fence. */
  function ReportContent(status: nat, text: string): (c: string)
    ensures 3 <= |c| <= REPORT_CUT + 3 && c[|c| - 3..] == "```"
    ensures c[..|c| - 3] <= ReportText(status, text)
    ensures |ReportText(status, text)| <= REPORT_CUT ==> c == ReportText(status, text) + "```"
    ensures |ReportText(status, text)| > REPORT_CUT ==> |c| == REPORT_CUT + 3
  {
    var full := ReportText(status, text);
    var cut := if |full| <= REPORT_CUT then full else full[..REPORT_CUT];
    assert (cut + "```")[..|cut|] == cut;
    cut + "```"
  }

  /** Customising a body that holds only a `content` keeps that content. */
  lemma ContentKept(content: string, custom: Dict, embedKeys: seq<string>)
    ensures var r := Customized([("content", VStr(content))], custom, embedKeys);
            HasKey(r, "content") && Get(r, "content") == VStr(content)
  {
    var body := [("content", VStr(content))];
    assert Keys(body) == ["content"];
    CustomizedBody(body, custom, embedKeys);
  }

  /** The webhook's answer to a call `send` made: accepted unless its status is 200 or 204. */
  predicate StatusOk(status: int) {
    status == 200 || status == 204
  }

  /** What `send` does, up to the HTTP post. */
  datatype SendOutcome =
    | Refused(reason: string)        // returned before any post
    | Posted(api: Value, body: Dict)  // the body posted as JSON to the api

  /** The body `send` assembles from its `body` and `embed` arguments (webhook.py:59-61). */
  function Assembled(body: Option<Dict>, embed: Value): Dict {
    var b := if body.Some? then body.value else [];
    if Truthy(embed) then
      DictSet(b, "embeds", if embed.VList? then embed else VList([embed]))
    else b
  }

  lemma AssembledEmbeds(body: Option<Dict>, embed: Value)
    requires Truthy(embed)
    ensures var b := Assembled(body, embed);
            HasKey(b, "embeds") &&
            Get(b, "embeds") == (if embed.VList? then embed else VList([embed])) &&
            (forall k :: HasKey(b, k) <==> k == "embeds" || (body.Some? && HasKey(body.value, k))) &&
            (forall k :: k != "embeds" && body.Some? && HasKey(body.value, k) ==> Get(b, k) == Get(body.value, k))
  {
  }

  class Webhook {
    /** The instance `__dict__`: `session`, `customization`, `webhook_api`, `_embed_properties`. */
    var attributes: Dict

    ghost predicate Valid()
      reads this
    {
      Keys(attributes) == ATTRIBUTE_NAMES
    }

    /** `Webhook()` (webhook.py:6-28). */
    constructor()
      ensures Valid() && attributes == InitialAttributes()
    {
      attributes := InitialAttributes();
    }

    /** `customize(**kwargs)`: each argument routed as `CustomizeStep` says, in order. */
    method Customize(kwargs: Dict)
      requires Valid()
      modifies this
      ensures Valid()
      ensures attributes == CustomizeAll(old(attributes), kwargs)
    {
      ghost var attrs := attributes;
      for i := 0 to |kwargs|
        invariant attributes == CustomizeAll(attrs, kwargs[..i])
      {
        assert kwargs[..i + 1][..i] == kwargs[..i];
        var (key, value) := kwargs[i];
        if HasKey(attributes, key) {
          attributes := DictSet(attributes, key, value);
        } else {
          attributes := DictSet(attributes, "customization", VDict(DictSet(CustomizationOf(attributes), key, value)));
        }
      }
      assert kwargs[..|kwargs|] == kwargs;
      assert HasKey(attrs, "customization");
      CustomizeKeepsAttributeNames(attrs, kwargs);
    }

    /** `_customize(body)`, by its loops. */
    method CustomizeBody(body: Dict) returns (r: Dict)
      ensures r == Customized(body, CustomizationOf(attributes), EmbedKeysOf(attributes))
    {
      var custom := CustomizationOf(attributes);
      var embedKeys := EmbedKeysOf(attributes);
      r := FillMissing(body, BODY_PROPERTIES, custom);
      if HasKey(r, "embeds") && (Get(r, "embeds").VList? || Get(r, "embeds").VTuple?) {
        var filled := FillEach(Get(r, "embeds").items, embedKeys, custom);
        r := DictSet(r, "embeds", if Get(r, "embeds").VList? then VList(filled) else VTuple(filled));
      }
    }

    /**
     * `send(webhook_api=..., body=..., embed=..., is_raw=...)` up to the post: the refusals in
     * order, else the api used and the body posted.
     */
    method Send(webhookApi: Value, body: Option<Dict>, embed: Value, isRaw: bool) returns (r: SendOutcome)
      ensures var api := if Truthy(webhookApi) then webhookApi else Attribute(attributes, "webhook_api");
              var bodyGiven := body.Some? && body.value != [];
              if !Truthy(api) then r == Refused(NO_API_MESSAGE)
              else if !bodyGiven && !Truthy(embed) then r == Refused(EMPTY_MESSAGE)
              else r.Posted? && r.api == api &&
                   r.body == (if isRaw then Assembled(body, embed)
                              else Customized(Assembled(body, embed), CustomizationOf(attributes), EmbedKeysOf(attributes)))
    {
      var api := if Truthy(webhookApi) then webhookApi else Attribute(attributes, "webhook_api");
      if !Truthy(api) {
        return Refused(NO_API_MESSAGE);
      }
      if !(body.Some? && body.value != []) && !Truthy(embed) {
        return Refused(EMPTY_MESSAGE);
      }
      var b := if body.Some? then body.value else [];
      if Truthy(embed) {
        // `body or {}`: a missing or empty body becomes a new empty dict
        b := DictSet(b, "embeds", if embed.VList? then embed else VList([embed]));
      }
      if !isRaw {
        b := CustomizeBody(b);
      }
      r := Posted(api, b);
    }

    /** The body of the error report posted after a call the webhook did not accept. */
    function ReportBody(status: nat, text: string): (r: Option<Dict>)
      reads this
      ensures r.None? <==> StatusOk(status)
      ensures r.Some? ==> HasKey(r.value, "content") && Get(r.value, "content") == VStr(ReportContent(status, text))
    {
      if StatusOk(status) then None
      else
        ContentKept(ReportContent(status, text), CustomizationOf(attributes), EmbedKeysOf(attributes));
        Some(Customized([("content", VStr(ReportContent(status, text)))],
                           CustomizationOf(attributes), EmbedKeysOf(attributes)))
    }
  }
}
