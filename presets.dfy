/** `resolveReplyPreset`: which reply style a reply request uses. The id
    `random` picks one of the concrete styles, avoiding the one used last
    when another exists; any other id picks that style, or the first
    concrete one when unknown. `Math.random()` becomes the `roll` input. */
module Presets {
  import opened Wrappers
  import opened Text

  datatype Preset = Preset(id: string, name: string, instruction: string)

  const RandomId := "random"

  /** The reply styles of `REPLY_PROMPT_PRESETS`, in order. */
  const Catalog: seq<Preset> := [
    Preset("random", "随机风格（每次生成变化）", ""),
    Preset("friendly_brief", "友好简短", "Friendly and casual tone. Keep it short: 1-2 concise sentences."),
    Preset("warm_supportive", "温暖支持", "Empathetic and supportive tone. Acknowledge feelings before giving suggestion."),
    Preset("playful_light", "轻松俏皮", "Light and playful tone with mild humor. Keep it natural, not exaggerated."),
    Preset("professional_clear", "专业清晰", "Calm professional tone. Clear wording, polite, and to the point."),
    Preset("curious_followup", "追问引导", "Use a curious tone and end with one short follow-up question."),
    Preset("action_oriented", "行动建议", "Give practical next-step advice with one concrete suggestion."),
    Preset("confident_direct", "自信直接", "Direct and confident tone. No fluff, no overexplaining."),
    Preset("thoughtful_detail", "细节走心", "Thoughtful tone. Reference one concrete detail from context to avoid generic wording.")
  ]

  /** The style used when there is no concrete one at all. */
  const Fallback := Preset("fallback", "默认", "Write a natural Discord reply aligned with the context.")

  /** The presets whose id is not `id`, in order (`filter`). */
  function Without(presets: seq<Preset>, id: string): (r: seq<Preset>)
    ensures |r| <= |presets|
  {
    if presets == [] then []
    else if presets[0].id == id then Without(presets[1..], id)
    else [presets[0]] + Without(presets[1..], id)
  }

  /** `Without` keeps exactly the presets whose id differs. */
  lemma {:induction false} WithoutMembers(presets: seq<Preset>, id: string)
    ensures forall p :: p in Without(presets, id) <==> p in presets && p.id != id
  {
    if presets != [] {
      WithoutMembers(presets[1..], id);
      assert presets == [presets[0]] + presets[1..];
    }
  }

  /** The concrete styles: every preset but `random`. */
  function Pool(presets: seq<Preset>): seq<Preset> {
    Without(presets, RandomId)
  }

  /** The first preset with id `id` (`find`). */
  function Find(presets: seq<Preset>, id: string): (r: Option<Preset>)
    ensures r.Some? ==> r.value in presets && r.value.id == id
    ensures r.None? <==> forall p :: p in presets ==> p.id != id
    ensures r.Some? && presets != [] && presets[0].id == id ==> r.value == presets[0]
    ensures r.Some? ==> exists i :: 0 <= i < |presets| && presets[i] == r.value && (forall j :: 0 <= j < i ==> presets[j].id != id)
  {
    if presets == [] then None
    else if presets[0].id == id then Some(presets[0])
    else Find(presets[1..], id)
  }

  /** `String(presetId || 'random').trim().toLowerCase()`, with ASCII case folding. */
  function NormalizeId(presetId: string): string {
    Lower(Trim(if presetId == [] then RandomId else presetId))
  }

  /** `Math.floor(roll * n)` for `roll` in `[0, 1)`: a position among `n`. */
  function Index(roll: real, n: nat): (k: nat)
    requires 0.0 <= roll < 1.0 && n > 0
    ensures k < n
  {
    var x := roll * n as real;
    assert 0.0 <= x < n as real;
    x.Floor
  }

  /** The styles `random` chooses among: the concrete ones without the last
      one used, unless that leaves none. */
  function Candidates(pool: seq<Preset>, lastId: string): seq<Preset> {
    var without := Without(pool, lastId);
    if lastId != [] && without != [] then without else pool
  }

  /** What `resolveReplyPreset` returns for `presetId` when `lastId` was used last. */
  function Resolve(presets: seq<Preset>, presetId: string, lastId: string, roll: real): (p: Preset)
    requires 0.0 <= roll < 1.0
  {
    var pool := Pool(presets);
    var fallback := if pool != [] then pool[0] else Fallback;
    if NormalizeId(presetId) == RandomId then
      var candidates := Candidates(pool, lastId);
      if candidates != [] then candidates[Index(roll, |candidates|)] else fallback
    else
      var fixed := Find(pool, NormalizeId(presetId));
      if fixed.Some? then fixed.value else fallback
  }

  /** The `random` entry itself is never the answer, and the answer is
      always a concrete style of the catalog or the built-in fallback. */
  lemma NeverRandom(presets: seq<Preset>, presetId: string, lastId: string, roll: real)
    requires 0.0 <= roll < 1.0
    ensures Resolve(presets, presetId, lastId, roll).id != RandomId
    ensures Resolve(presets, presetId, lastId, roll) in Pool(presets) || Resolve(presets, presetId, lastId, roll) == Fallback
  {
    var pool := Pool(presets);
    var r := Resolve(presets, presetId, lastId, roll);
    WithoutMembers(presets, RandomId);
    if NormalizeId(presetId) == RandomId {
      var candidates := Candidates(pool, lastId);
      if candidates != [] {
        WithoutMembers(pool, lastId);
        assert candidates[Index(roll, |candidates|)] in candidates;
        assert r in pool;
      }
    }
  }

  /** With style `random`, a recorded last style and some other concrete
      style available, the pick differs from the last one. */
  lemma AvoidsLast(presets: seq<Preset>, presetId: string, lastId: string, roll: real)
    requires 0.0 <= roll < 1.0
    requires NormalizeId(presetId) == RandomId && lastId != []
    requires exists p :: p in Pool(presets) && p.id != lastId
    ensures Resolve(presets, presetId, lastId, roll).id != lastId
  {
    var pool := Pool(presets);
    var p :| p in pool && p.id != lastId;
    WithoutMembers(pool, lastId);
    assert p in Without(pool, lastId);
    var candidates := Candidates(pool, lastId);
    assert candidates == Without(pool, lastId);
    assert candidates[Index(roll, |candidates|)].id != lastId;
  }

  /** An id naming a concrete style gives that style; an id naming none
      gives the first concrete style. */
  lemma FixedStyle(presets: seq<Preset>, presetId: string, lastId: string, roll: real)
    requires 0.0 <= roll < 1.0
    requires NormalizeId(presetId) != RandomId
    requires Pool(presets) != []
    ensures (exists p :: p in Pool(presets) && p.id == NormalizeId(presetId)) ==>
      Resolve(presets, presetId, lastId, roll).id == NormalizeId(presetId)
    ensures (forall p :: p in Pool(presets) ==> p.id != NormalizeId(presetId)) ==>
      Resolve(presets, presetId, lastId, roll) == Pool(presets)[0]
  {
  }

  /** The concrete styles of the catalog: eight of them, `friendly_brief` first. */
  lemma CatalogPool()
    ensures |Pool(Catalog)| == 8
    ensures Pool(Catalog)[0].id == "friendly_brief"
    ensures Pool(Catalog)[1].id == "warm_supportive"
  {
    var c := Catalog;
    assert forall k :: 0 <= k < 8 ==> |c[1..][k].id| != |RandomId|;
    WithoutNone(c[1..], RandomId);
    assert c == [c[0]] + c[1..];
    assert Pool(c) == Without(c[1..], RandomId);
  }

  /** Presets none of which has id `id` are all kept. */
  lemma {:induction false} WithoutNone(presets: seq<Preset>, id: string)
    requires forall k :: 0 <= k < |presets| ==> presets[k].id != id
    ensures Without(presets, id) == presets
  {
    if presets != [] {
      WithoutNone(presets[1..], id);
    }
  }

  /** Whichever style was used last, the catalog offers another, so `random`
      never repeats a style. */
  lemma CatalogAvoidsLast(presetId: string, lastId: string, roll: real)
    requires 0.0 <= roll < 1.0
    requires NormalizeId(presetId) == RandomId && lastId != []
    ensures Resolve(Catalog, presetId, lastId, roll).id != lastId
  {
    CatalogPool();
    var pool := Pool(Catalog);
    if pool[0].id == lastId {
      assert pool[1] in pool && pool[1].id != lastId;
    } else {
      assert pool[0] in pool && pool[0].id != lastId;
    }
    AvoidsLast(Catalog, presetId, lastId, roll);
  }

  /** An id the catalog does not know gives `friendly_brief`. */
  lemma CatalogUnknown(presetId: string, lastId: string, roll: real)
    requires 0.0 <= roll < 1.0
    requires NormalizeId(presetId) != RandomId
    requires forall p :: p in Pool(Catalog) ==> p.id != NormalizeId(presetId)
    ensures Resolve(Catalog, presetId, lastId, roll).id == "friendly_brief"
  {
    CatalogPool();
    FixedStyle(Catalog, presetId, lastId, roll);
  }

  /** The holder of `lastReplyPresetId`. */
  class PresetSelector {
    const presets: seq<Preset>
    var lastId: string

    /** The selector over the catalog, with no style used yet. */
    constructor ()
      ensures presets == Catalog && lastId == []
    {
      presets := Catalog;
      lastId := [];
    }

    /** `resolveReplyPreset`: the answer is the one `Resolve` gives, and it
        is recorded as the last one used. */
    method ResolveReplyPreset(presetId: string, roll: real) returns (p: Preset)
      requires 0.0 <= roll < 1.0
      modifies this
      ensures p == Resolve(presets, presetId, old(lastId), roll)
      ensures lastId == p.id
    {
      var pool := Pool(presets);
      var fallback := if pool != [] then pool[0] else Fallback;
      var normalizedId := NormalizeId(presetId);
      if normalizedId == RandomId {
        var candidates := pool;
        if lastId != [] {
          var withoutLast := Without(pool, lastId);
          if withoutLast != [] {
            candidates := withoutLast;
          }
        }
        p := if candidates != [] then candidates[Index(roll, |candidates|)] else fallback;
        lastId := p.id;
        return;
      }
      var fixed := Find(pool, normalizedId);
      p := if fixed.Some? then fixed.value else fallback;
      lastId := p.id;
    }
  }
}
