/** Settings: the defaults merged under what was stored (`loadSettings`),
    `clampNumber` over integers, and `buildCacheKey`, which names a
    translation by channel, message, target language and model. */
module Settings {
  import opened Wrappers
  import opened Text
  import opened Completion

  /** `DEFAULT_SETTINGS`; the temperature `0.2` is the real `0.2`. */
  const Defaults: map<string, Json> := map[
    "enabled" := JBool(true),
    "autoTranslate" := JBool(true),
    "targetLanguage" := JStr("简体中文"),
    "contextSize" := JNum(6.0),
    "provider" := JStr("openai"),
    "apiEndpoint" := JStr("https://api.openai.com/v1/chat/completions"),
    "apiKey" := JStr(""),
    "model" := JStr("gpt-4o-mini"),
    "temperature" := JNum(0.2),
    "requestIntervalMs" := JNum(900.0),
    "maxCacheEntries" := JNum(1000.0),
    "replyPresetId" := JStr("random"),
    "replyExtraInstruction" := JStr(""),
    "systemPromptTranslate" := JStr("You are a precise conversation translator. Use context to disambiguate meaning, keep names/mentions/emoji, and return only translated message text. Do not include speaker names, labels, or bracket tags like [name]."),
    "systemPromptReply" := JStr("You are an assistant that writes natural Discord replies based on conversation context. Keep tone consistent with context.")
  ]

  /** The own enumerable properties object spread copies out of a parsed
      value: an object's fields, the positions of an array or of a string,
      and nothing for `null`, booleans and numbers. */
  function Spread(j: Json): (m: map<string, Json>)
    ensures j.JObj? ==> m == j.fields
    ensures j.JArr? ==> forall i :: 0 <= i < |j.items| ==> Decimal(i) in m && m[Decimal(i)] == j.items[i]
    ensures j.JStr? ==> forall i :: 0 <= i < |j.s| ==> Decimal(i) in m && m[Decimal(i)] == JStr([j.s[i]])
    ensures !(j.JObj? || j.JArr? || j.JStr?) ==> m == map[]
  {
    match j
    case JObj(fields) => fields
    case JArr(items) => Positions(items)
    case JStr(s) => Positions(seq(|s|, i requires 0 <= i < |s| => JStr([s[i]])))
    case _ => map[]
  }

  /** The index keys of a sequence, each with its element. */
  function Positions(items: seq<Json>): (m: map<string, Json>)
    ensures forall i :: 0 <= i < |items| ==> Decimal(i) in m && m[Decimal(i)] == items[i]
  {
    if items == [] then map[]
    else
      var m := Positions(items[..|items| - 1])[Decimal(|items| - 1) := items[|items| - 1]];
      DecimalFresh(|items| - 1);
      m
  }

  /** A rendered index differs from every smaller one. */
  lemma DecimalFresh(n: nat)
    ensures forall i :: 0 <= i < n ==> Decimal(i) != Decimal(n)
  {
    forall i | 0 <= i < n ensures Decimal(i) != Decimal(n) {
      DigitsRoundTrip(i);
      DigitsRoundTrip(n);
    }
  }

  /** `loadSettings`: `{...defaults, ...(parsed || {})}`, where `None` stands
      for nothing stored or a value that does not parse. */
  function LoadSettings(defaults: map<string, Json>, parsed: Option<Json>): map<string, Json> {
    if parsed.Some? && Truthy(parsed.value) then defaults + Spread(parsed.value) else defaults
  }

  /** A stored key wins, every other default survives, and no key appears
      that is in neither. */
  lemma LoadSettingsMerge(defaults: map<string, Json>, stored: map<string, Json>)
    ensures LoadSettings(defaults, Some(JObj(stored))).Keys == defaults.Keys + stored.Keys
    ensures forall k :: k in stored ==> LoadSettings(defaults, Some(JObj(stored)))[k] == stored[k]
    ensures forall k :: k in defaults && k !in stored ==> LoadSettings(defaults, Some(JObj(stored)))[k] == defaults[k]
  {
  }

  /** Nothing stored, an unparsable value, any falsy stored value (`null`,
      `false`, `0`, `""`) or a boolean or number, which spreads no keys,
      leaves exactly the defaults. */
  lemma LoadSettingsNothing(defaults: map<string, Json>, parsed: Option<Json>)
    requires parsed.None? || !Truthy(parsed.value) || parsed.value.JBool? || parsed.value.JNum?
    ensures LoadSettings(defaults, parsed) == defaults
  {
  }

  /** Stored settings without a cache bound keep the bound of 1000 entries. */
  lemma StoredWithoutBound(stored: map<string, Json>)
    requires "maxCacheEntries" !in stored
    ensures LoadSettings(Defaults, Some(JObj(stored)))["maxCacheEntries"] == JNum(1000.0)
  {
    assert "maxCacheEntries" in Defaults && Defaults["maxCacheEntries"] == JNum(1000.0);
  }

  /** `clampNumber` over integers: `None` stands for a form value that is not
      a finite number, which gives the fallback unclamped. */
  function ClampNumber(value: Option<int>, min: int, max: int, fallback: int): (r: int)
    ensures value.None? ==> r == fallback
    ensures value.Some? ==> r <= max
    ensures value.Some? && min <= max ==> min <= r
  {
    if value.None? then fallback else Min(max, Max(min, value.value))
  }

  /** A number in range is kept, one below goes to `min`, one above to `max`. */
  lemma ClampCases(v: int, min: int, max: int, fallback: int)
    requires min <= max
    ensures min <= v <= max ==> ClampNumber(Some(v), min, max, fallback) == v
    ensures v < min ==> ClampNumber(Some(v), min, max, fallback) == min
    ensures v > max ==> ClampNumber(Some(v), min, max, fallback) == max
  {
  }

  /** Clamping a clamped number changes nothing. */
  lemma ClampIdempotent(value: Option<int>, min: int, max: int, fallback: int)
    requires min <= max
    ensures var once := ClampNumber(value, min, max, fallback);
      value.Some? ==> ClampNumber(Some(once), min, max, fallback) == once
  {
  }

  /** The form's context size is always within 1 to 20, and its request
      interval within 100 to 5000 ms (their fallbacks 6 and 900 are in range). */
  lemma FormBounds(contextSize: Option<int>, interval: Option<int>)
    ensures 1 <= ClampNumber(contextSize, 1, 20, 6) <= 20
    ensures 100 <= ClampNumber(interval, 100, 5000, 900) <= 5000
  {
  }

  /** `buildCacheKey`. */
  function BuildCacheKey(channelId: string, messageId: string, language: string, model: string): (key: string)
    ensures |key| == |channelId| + |messageId| + |language| + |model| + 3
  {
    channelId + ":" + messageId + ":" + language + ":" + model
  }

  /** What the translation path reads from the settings to name a message. */
  datatype Config = Config(targetLanguage: string, model: string, apiEndpoint: string)

  /** The key of a message under the settings in force: the endpoint is not part of it. */
  function KeyFor(channelId: string, messageId: string, config: Config): string {
    BuildCacheKey(channelId, messageId, config.targetLanguage, config.model)
  }

  /** Switching provider endpoint while keeping the model name reuses the cached entries. */
  lemma EndpointIgnored(channelId: string, messageId: string, c1: Config, c2: Config)
    requires c1.targetLanguage == c2.targetLanguage && c1.model == c2.model
    ensures KeyFor(channelId, messageId, c1) == KeyFor(channelId, messageId, c2)
  {
  }

  predicate NoColon(s: string) { forall i :: 0 <= i < |s| ==> s[i] != ':' }

  /** A colon-free head is recovered from `head + ":" + tail`. */
  lemma {:induction false} SplitAtColon(a: string, b: string, x: string, y: string)
    requires NoColon(a) && NoColon(x)
    requires a + ":" + b == x + ":" + y
    ensures a == x && b == y
  {
    var s := a + ":" + b;
    assert s[|a|] == ':' && s[|x|] == ':';
    assert |a| == |x|;
    assert a == s[..|a|] == x;
    assert b == s[|a| + 1..] == y;
  }

  /** Channel ids, message ids and languages without a colon (Discord's ids
      are digits) make the key name exactly one message, language and model. */
  lemma CacheKeyInjective(c1: string, m1: string, l1: string, o1: string, c2: string, m2: string, l2: string, o2: string)
    requires NoColon(c1) && NoColon(m1) && NoColon(l1)
    requires NoColon(c2) && NoColon(m2) && NoColon(l2)
    requires BuildCacheKey(c1, m1, l1, o1) == BuildCacheKey(c2, m2, l2, o2)
    ensures c1 == c2 && m1 == m2 && l1 == l2 && o1 == o2
  {
    assert BuildCacheKey(c1, m1, l1, o1) == c1 + ":" + (m1 + ":" + l1 + ":" + o1);
    assert BuildCacheKey(c2, m2, l2, o2) == c2 + ":" + (m2 + ":" + l2 + ":" + o2);
    SplitAtColon(c1, m1 + ":" + l1 + ":" + o1, c2, m2 + ":" + l2 + ":" + o2);
    assert m1 + ":" + l1 + ":" + o1 == m1 + ":" + (l1 + ":" + o1);
    assert m2 + ":" + l2 + ":" + o2 == m2 + ":" + (l2 + ":" + o2);
    SplitAtColon(m1, l1 + ":" + o1, m2, l2 + ":" + o2);
    SplitAtColon(l1, o1, l2, o2);
  }
}
