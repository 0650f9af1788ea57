/** The clean-up applied to model output before it is cached and shown
    (`normalizeTranslationText`), and `escapeRegExp`, which turns the author
    name into a pattern. Every regular expression of the source is written
    out as a matcher over the characters of the string. */
module Normalizer {
  import opened Wrappers
  import opened Text

  /** The characters `escapeRegExp` prefixes with a backslash. */
  predicate IsRegExpSyntax(c: char) {
    c == '.' || c == '*' || c == '+' || c == '?' || c == '^' || c == '$' || c == '{' || c == '}'
    || c == '(' || c == ')' || c == '|' || c == '[' || c == ']' || c == '\\'
  }

  /** A pattern in which every syntax character is escaped, so that it has
      no operator in it: it can only match one literal text. */
  predicate IsLiteralPattern(p: string)
    decreases |p|
  {
    if p == [] then true
    else if p[0] == '\\' then |p| >= 2 && IsRegExpSyntax(p[1]) && IsLiteralPattern(p[2..])
    else !IsRegExpSyntax(p[0]) && IsLiteralPattern(p[1..])
  }

  /** The one text a literal pattern matches. */
  function PatternText(p: string): string
    decreases |p|
  {
    if p == [] then []
    else if p[0] == '\\' && |p| >= 2 then [p[1]] + PatternText(p[2..])
    else [p[0]] + PatternText(p[1..])
  }

  /** `escapeRegExp`: the result is a literal pattern for exactly `s`. */
  function EscapeRegExp(s: string): (r: string)
    ensures IsLiteralPattern(r)
    ensures PatternText(r) == s
    ensures |s| <= |r| <= 2 * |s|
  {
    if s == [] then []
    else
      var rest := EscapeRegExp(s[1..]);
      if IsRegExpSyntax(s[0]) then
        assert (['\\', s[0]] + rest)[2..] == rest;
        ['\\', s[0]] + rest
      else
        assert ([s[0]] + rest)[1..] == rest;
        [s[0]] + rest
  }

  /** A name without syntax characters is its own pattern. */
  lemma {:induction false} EscapePlain(s: string)
    requires forall i :: 0 <= i < |s| ==> !IsRegExpSyntax(s[i])
    ensures EscapeRegExp(s) == s
    ensures PatternText(s) == s
  {
    if s != [] {
      EscapePlain(s[1..]);
    }
  }

  const Fence := "```"

  /** What an optional greedy `\w+` leaves. */
  function DropWord(s: string): (r: string)
    ensures IsSuffix(r, s)
    ensures r == [] || !IsWordChar(r[0])
  {
    if s != [] && IsWordChar(s[0]) then DropWord(s[1..]) else s
  }

  /** `replace(/^```(?:\w+)?\s*([\s\S]*?)\s*```$/u, '$1')`: text that opens
      and closes with a fence is replaced by what lies between, without an
      optional language word and without the whitespace next to the fences. */
  function UnwrapFence(s: string): (r: string)
    ensures IsInfix(r, s)
    ensures !(|s| >= 6 && s[..3] == Fence && s[|s| - 3..] == Fence) ==> r == s
  {
    if |s| >= 6 && s[..3] == Fence && s[|s| - 3..] == Fence then
      var inner := s[3..|s| - 3];
      var body := TrimStart(DropWord(inner));
      var r := TrimEnd(body);
      InfixOfSlice(s, 3, |s| - 3);
      SuffixIsInfix(DropWord(inner), inner);
      SuffixIsInfix(body, DropWord(inner));
      InfixOfSlice(body, 0, |r|);
      InfixTransitive(body, DropWord(inner), inner);
      InfixTransitive(r, body, inner);
      InfixTransitive(r, inner, s);
      r
    else
      InfixOfWhole(s);
      s
  }

  /** Whatever lies between two fences is what is kept, trimmed. */
  lemma UnwrapFenced(inner: string)
    ensures UnwrapFence(Fence + inner + Fence) == TrimEnd(TrimStart(DropWord(inner)))
  {
    var s := Fence + inner + Fence;
    assert s[..3] == Fence;
    assert s[|s| - 3..] == Fence;
    assert s[3..|s| - 3] == inner;
  }

  // The label words of the label pattern, in the order the alternation tries them.
  const Labels: seq<string> := ["translation", "translated text", "译文", "翻译"]

  predicate IsLabelColon(c: char) { c == ':' || c == '：' }

  /** The text after label `l` and `\s*[:：]\s*`, if `s` starts that way. */
  function AfterLabel(s: string, l: string): (r: Option<string>)
    ensures r.Some? ==> IsSuffix(r.value, s) && |r.value| < |s|
    ensures r.Some? ==> StartsWithIgnoringCase(s, l)
  {
    if StartsWithIgnoringCase(s, l) then
      var rest := DropAndTrim(s, |l|);
      if rest != [] && IsLabelColon(rest[0]) then
        var r := DropAndTrim(rest, 1);
        SuffixTransitive(r, rest, s);
        Some(r)
      else None
    else None
  }

  /** The alternation: the first label, in order, after which the rest of the pattern matches. */
  function StripFirstLabel(s: string, labels: seq<string>): (r: string)
    ensures IsSuffix(r, s)
    ensures r != s ==> exists k :: 0 <= k < |labels| && AfterLabel(s, labels[k]) == Some(r)
    ensures (forall k :: 0 <= k < |labels| ==> AfterLabel(s, labels[k]).None?) ==> r == s
    ensures forall k ::
      (0 <= k < |labels| && AfterLabel(s, labels[k]).Some? && (forall j :: 0 <= j < k ==> AfterLabel(s, labels[j]).None?))
      ==> r == AfterLabel(s, labels[k]).value
  {
    if labels == [] then s
    else match AfterLabel(s, labels[0])
      case Some(r) => r
      case None =>
        var r := StripFirstLabel(s, labels[1..]);
        assert forall k :: 1 <= k < |labels| ==> labels[1..][k - 1] == labels[k];
        r
  }

  // replace(/^(?:translation|translated text|译文|翻译)\s*[:：]\s*/iu, ''):
  // at most one label is removed (the pattern has no `g` flag).
  function StripLabel(s: string): (r: string)
    ensures IsSuffix(r, s)
  {
    StripFirstLabel(s, Labels)
  }

  predicate IsTagBodyChar(c: char) { c != ']' && c != '\r' && c != '\n' }

  /** The number of characters from position `i` on that may stand inside a tag. */
  function RunLength(s: string, i: nat): (n: nat)
    requires i <= |s|
    ensures i + n <= |s|
    ensures forall k :: i <= k < i + n ==> IsTagBodyChar(s[k])
    ensures i + n == |s| || !IsTagBodyChar(s[i + n])
    decreases |s| - i
  {
    if i < |s| && IsTagBodyChar(s[i]) then 1 + RunLength(s, i + 1) else 0
  }

  /** The length of the tag `[...]` that opens `s`, with 1 to 40 characters
      between the brackets; 0 when `s` does not open with one. */
  function TagLength(s: string): (n: nat)
    ensures n <= |s|
    ensures n != 0 ==> 3 <= n <= 42 && s[0] == '[' && s[n - 1] == ']'
    ensures n != 0 ==> forall k :: 1 <= k < n - 1 ==> IsTagBodyChar(s[k])
  {
    if s != [] && s[0] == '[' then
      var body := RunLength(s, 1);
      if 1 <= body <= 40 && 1 + body < |s| && s[1 + body] == ']' then body + 2 else 0
    else 0
  }

  /** `replace(/^(?:\[[^\]\r\n]{1,40}\]\s*)+/u, '')`: every leading tag and
      the whitespace after it; what is left does not open with a tag. */
  function StripTags(s: string): (r: string)
    ensures IsSuffix(r, s)
    ensures TagLength(r) == 0
    decreases |s|
  {
    var n := TagLength(s);
    if n == 0 then s
    else
      var rest := DropAndTrim(s, n);
      var r := StripTags(rest);
      SuffixTransitive(r, rest, s);
      r
  }

  /** The run of tag characters that ends at a character that cannot stand
      in a tag is measured exactly. */
  lemma {:induction false} RunLengthOf(s: string, i: nat, t: string)
    requires i + |t| <= |s| && s[i..i + |t|] == t
    requires forall k :: 0 <= k < |t| ==> IsTagBodyChar(t[k])
    requires i + |t| == |s| || !IsTagBodyChar(s[i + |t|])
    ensures RunLength(s, i) == |t|
    decreases |t|
  {
    if t != [] {
      assert s[i] == t[0];
      assert s[i + 1..i + 1 + |t[1..]|] == t[1..];
      RunLengthOf(s, i + 1, t[1..]);
    }
  }

  /** A tag of 1 to 40 characters is recognised at the start, whatever follows it. */
  lemma TagOf(t: string, rest: string)
    requires 1 <= |t| <= 40
    requires forall k :: 0 <= k < |t| ==> IsTagBodyChar(t[k])
    ensures TagLength("[" + t + "]" + rest) == |t| + 2
  {
    var s := "[" + t + "]" + rest;
    assert s[1..1 + |t|] == t;
    assert s[1 + |t|] == ']';
    RunLengthOf(s, 1, t);
  }

  /** A bracketed run of more than 40 characters is no tag, and stays. */
  lemma LongTag(t: string, rest: string)
    requires |t| > 40
    requires forall k :: 0 <= k < |t| ==> IsTagBodyChar(t[k])
    ensures TagLength("[" + t + "]" + rest) == 0
    ensures StripTags("[" + t + "]" + rest) == "[" + t + "]" + rest
  {
    var s := "[" + t + "]" + rest;
    assert s[1..1 + |t|] == t;
    assert s[1 + |t|] == ']';
    RunLengthOf(s, 1, t);
  }

  /** A leading tag and the whitespace after it go, and the stripping goes
      on with what follows. */
  lemma StripOneTag(t: string, w: string, h: string)
    requires 1 <= |t| <= 40
    requires forall k :: 0 <= k < |t| ==> IsTagBodyChar(t[k])
    requires forall i :: 0 <= i < |w| ==> IsSpace(w[i])
    requires h == [] || !IsSpace(h[0])
    ensures StripTags("[" + t + "]" + w + h) == StripTags(h)
  {
    var s := "[" + t + "]" + w + h;
    assert s == "[" + t + "]" + (w + h);
    TagOf(t, w + h);
    assert s[|t| + 2..] == w + h;
    TrimStartSpaces(w, h);
  }

  /** A text that opens with a spelling of label `l` (letters in any
      case), then whitespace, a colon and whitespace, loses all of that. */
  lemma AfterLabelOf(lp: string, l: string, w1: string, c: char, w2: string, h: string)
    requires Lower(lp) == Lower(l)
    requires forall i :: 0 <= i < |w1| ==> IsSpace(w1[i])
    requires forall i :: 0 <= i < |w2| ==> IsSpace(w2[i])
    requires IsLabelColon(c)
    requires h == [] || !IsSpace(h[0])
    ensures AfterLabel(lp + w1 + [c] + w2 + h, l) == Some(h)
  {
    var s := lp + w1 + [c] + w2 + h;
    assert |lp| == |l|;
    assert s[..|l|] == lp;
    assert s[|l|..] == w1 + ([c] + w2 + h);
    TrimStartSpaces(w1, [c] + w2 + h);
    var rest := [c] + w2 + h;
    assert rest[1..] == w2 + h;
    TrimStartSpaces(w2, h);
  }

  /** A text that opens with `lp` cannot open with a label `m` that differs
      from `lp` at some position, ignoring case. */
  lemma LabelMismatch(s: string, lp: string, m: string, p: nat)
    requires |lp| <= |s| && s[..|lp|] == lp
    requires p < |lp| && p < |m| && Lower(lp)[p] != Lower(m)[p]
    ensures AfterLabel(s, m).None?
  {
  }

  /** Any of the four labels, in any letter case, with a colon and the
      whitespace around it, is removed from the start, once. */
  lemma LabelStripped(k: nat, lp: string, w1: string, c: char, w2: string, h: string)
    requires k < |Labels| && Lower(lp) == Lower(Labels[k])
    requires forall i :: 0 <= i < |w1| ==> IsSpace(w1[i])
    requires forall i :: 0 <= i < |w2| ==> IsSpace(w2[i])
    requires IsLabelColon(c)
    requires h == [] || !IsSpace(h[0])
    ensures StripLabel(lp + w1 + [c] + w2 + h) == h
  {
    var s := lp + w1 + [c] + w2 + h;
    AfterLabelOf(lp, Labels[k], w1, c, w2, h);
    assert s[..|lp|] == lp;
    EarlierLabelsMiss(k, s, lp);
  }

  /** No label before label `k` in the alternation matches a spelling of label `k`. */
  lemma EarlierLabelsMiss(k: nat, s: string, lp: string)
    requires k < |Labels| && Lower(lp) == Lower(Labels[k])
    requires |lp| <= |s| && s[..|lp|] == lp
    ensures forall j :: 0 <= j < k ==> AfterLabel(s, Labels[j]).None?
  {
    var low := Lower(Labels[k]);
    assert |lp| == |Labels[k]|;
    if k == 1 {
      assert low[8] == LowerChar(Labels[1][8]) == 'e';
      assert Lower(Labels[0])[8] == LowerChar(Labels[0][8]) == 'i';
      LabelMismatch(s, lp, Labels[0], 8);
    } else if k >= 2 {
      assert low[0] == Labels[k][0];
      assert Lower(Labels[0])[0] == 't' && Lower(Labels[1])[0] == 't';
      LabelMismatch(s, lp, Labels[0], 0);
      LabelMismatch(s, lp, Labels[1], 0);
      if k == 3 {
        assert Lower(Labels[2])[0] == Labels[2][0];
        LabelMismatch(s, lp, Labels[2], 0);
      }
    }
  }

  predicate IsAuthorSeparator(c: char) { c == ':' || c == '：' || c == '-' }

  /** `replace(new RegExp(`^${name}\s*[:：-]\s*`, 'iu'), '')` for a pattern
      that matches the literal text `name`. */
  function StripAuthorPrefix(s: string, name: string): (r: string)
    ensures IsSuffix(r, s)
    ensures r != s ==> StartsWithIgnoringCase(s, name)
  {
    if StartsWithIgnoringCase(s, name) then
      var rest := DropAndTrim(s, |name|);
      if rest != [] && IsAuthorSeparator(rest[0]) then
        var r := DropAndTrim(rest, 1);
        SuffixTransitive(r, rest, s);
        r
      else s
    else s
  }

  /** `replace(new RegExp(`^\[${name}\]\s*`, 'iu'), '')`. */
  function StripAuthorTag(s: string, name: string): (r: string)
    ensures IsSuffix(r, s)
    ensures r != s ==> |s| >= |name| + 2 && s[0] == '[' && s[|name| + 1] == ']'
  {
    if |s| >= |name| + 2 && s[0] == '[' && Lower(s[1..|name| + 1]) == Lower(name) && s[|name| + 1] == ']' then
      DropAndTrim(s, |name| + 2)
    else s
  }

  /** The author step: when an author is given and its trimmed name is not
      empty, the `Name:` form and then the `[Name]` form are removed, each
      matched with the text of the escaped name as a literal. */
  function StripAuthor(s: string, author: string): (r: string)
    ensures IsSuffix(r, s)
  {
    var pattern := EscapeRegExp(Trim(author));
    if author != [] && pattern != [] then
      var p := StripAuthorPrefix(s, PatternText(pattern));
      var r := StripAuthorTag(p, PatternText(pattern));
      SuffixTransitive(r, p, s);
      r
    else s
  }

  /** The fence, label, tag and author stripping of `normalizeTranslationText`,
      applied to the sanitized text; an empty `author` stands for a missing one. */
  function Strip(original: string, author: string): (r: string)
    ensures IsInfix(r, original)
  {
    var unfenced := Trim(UnwrapFence(original));
    var unlabelled := StripLabel(unfenced);
    var untagged := StripTags(unlabelled);
    var r := StripAuthor(untagged, author);
    InfixTransitive(unfenced, UnwrapFence(original), original);
    SuffixIsInfix(unlabelled, unfenced);
    InfixTransitive(unlabelled, unfenced, original);
    SuffixIsInfix(untagged, unlabelled);
    InfixTransitive(untagged, unlabelled, original);
    SuffixIsInfix(r, untagged);
    InfixTransitive(r, untagged, original);
    r
  }

  /** `normalizeTranslationText`: the result is sanitized, is a piece of the
      sanitized input (nothing is ever added), and is empty only when the
      sanitized input is, because stripping everything falls back to it. */
  function NormalizeTranslation(text: string, author: string): (r: string)
    ensures Sanitized(r)
    ensures IsInfix(r, Sanitize(text))
    ensures Sanitize(text) != [] ==> r != []
  {
    var original := Sanitize(text);
    var stripped := Strip(original, author);
    var cleaned := Sanitize(stripped);
    InfixNoRuns(stripped, original);
    SanitizeNoRunsInfix(stripped);
    InfixTransitive(cleaned, stripped, original);
    InfixOfSlice(original, 0, |original|);
    assert original[0..|original|] == original;
    if cleaned != [] then cleaned else original
  }

  lemma InfixNoRuns(u: string, s: string)
    requires NoRuns(s) && IsInfix(u, s)
    ensures NoRuns(u)
  {
    var i, j :| 0 <= i <= j <= |s| && u == s[i..j];
    NoRunsInfix(s, i, j);
  }
}
