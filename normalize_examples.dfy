/** Worked inputs of `normalizeTranslationText`: a fenced reply carrying a
    Chinese label, and a reply opening with the author's name, each stated
    for every sentence and then for one. */
module NormalizeExamples {
  import opened Wrappers
  import opened Text
  import opened Normalizer

  /** Two texts without runs join into one without runs when a space does
      not meet a space at the seam. */
  lemma NoRunsAppend(a: string, b: string)
    requires NoRuns(a) && NoRuns(b)
    requires b == [] || !IsSpace(b[0])
    ensures NoRuns(a + b)
  {
    var s := a + b;
    forall i | 0 <= i < |s|
      ensures NoRunAt(s, i)
    {
      if i < |a| {
        assert s[i] == a[i];
        assert NoRunAt(a, i);
        if i + 1 < |a| { assert s[i + 1] == a[i + 1]; }
        else if i + 1 < |s| { assert s[i + 1] == b[0]; }
      } else {
        assert s[i] == b[i - |a|];
        assert NoRunAt(b, i - |a|);
        if i + 1 < |s| { assert s[i + 1] == b[i + 1 - |a|]; }
      }
    }
  }

  lemma TrimStartOfNonSpace(s: string)
    requires s != [] && !IsSpace(s[0])
    ensures TrimStart(s) == s
  {
  }

  lemma TrimEndOfNonSpace(s: string)
    requires s != [] && !IsSpace(s[|s| - 1])
    ensures TrimEnd(s) == s
  {
  }

  /** The label `译文: ` followed by a sentence. */
  function Labelled(h: string): string { "译文: " + h }

  /** The reply as a model may send it: the labelled sentence in a fence. */
  function Fenced(h: string): string { "```" + ("\n" + Labelled(h) + "\n```") }

  /** The sentences the example applies to: already clean, not opening with
      a tag, and opening with neither the author's name nor their tag. */
  predicate Sentence(h: string, author: string) {
    h != [] && Sanitized(h) && h[0] != '[' && StripAuthor(h, author) == h
  }

  lemma LabelledNoRuns(h: string)
    requires h != [] && Sanitized(h)
    ensures NoRuns(Labelled(h))
  {
    var p := "译文: ";
    assert NoRuns(p);
    NoRunsAppend(p, h);
  }

  /** The line break before the closing fence becomes one space. */
  lemma LabelledTailCollapse(h: string)
    requires h != [] && Sanitized(h)
    ensures Collapse(Labelled(h) + "\n```") == Labelled(h) + " ```"
  {
    var m := Labelled(h);
    LabelledNoRuns(h);
    CollapseKeepsNoRuns(m);
    assert m[|m| - 1] == h[|h| - 1];
    ClosingCollapse("\n```");
    CollapseAppend(m, "\n```");
  }

  /** So does the line break after the opening fence. */
  lemma LineCollapse(h: string)
    requires h != [] && Sanitized(h)
    ensures Collapse("\n" + Labelled(h) + "\n```") == " " + Labelled(h) + " ```"
  {
    var m := Labelled(h);
    var x := "\n" + m + "\n```";
    assert x[1..] == m + "\n```";
    assert x[1] == '译';
    LabelledTailCollapse(h);
    CollapseOfSpaceHead(x);
  }

  /** A single whitespace character before a non-whitespace one becomes
      a space. */
  lemma CollapseOfSpaceHead(x: string)
    requires |x| >= 2 && IsSpace(x[0]) && !IsSpace(x[1])
    ensures Collapse(x) == " " + Collapse(x[1..])
  {
    TrimStartOfNonSpace(x[1..]);
  }

  lemma ClosingCollapse(tail: string)
    requires tail == "\n```"
    ensures Collapse(tail) == " ```"
  {
    assert tail[1..] == "```";
    TrimStartOfNonSpace("```");
  }

  lemma FencedCollapse(h: string)
    requires h != [] && Sanitized(h)
    ensures Collapse(Fenced(h)) == "```" + (" " + Labelled(h) + " ```")
  {
    LineCollapse(h);
    CollapseAppend("```", "\n" + Labelled(h) + "\n```");
  }

  lemma FencedSanitize(h: string)
    requires h != [] && Sanitized(h)
    ensures Sanitize(Fenced(h)) == "```" + (" " + Labelled(h) + " ```")
  {
    FencedCollapse(h);
    var c := "```" + (" " + Labelled(h) + " ```");
    assert c[0] == '`' && c[|c| - 1] == '`';
    TrimOfEdges(c);
  }

  lemma SpacedBody(m: string)
    requires m != [] && !IsSpace(m[0]) && !IsSpace(m[|m| - 1])
    ensures TrimEnd(TrimStart(DropWord(" " + m + " "))) == m
  {
    var inner := " " + m + " ";
    assert DropWord(inner) == inner;
    assert inner[1..] == m + " ";
    assert (m + " ")[0] == m[0];
    TrimStartOfNonSpace(m + " ");
    assert (m + " ")[..|m|] == m;
    TrimEndOfNonSpace(m);
  }

  lemma UnwrapSpaced(m: string)
    requires m != [] && !IsSpace(m[0]) && !IsSpace(m[|m| - 1])
    ensures UnwrapFence("```" + (" " + m + " ```")) == m
  {
    assert "```" + (" " + m + " ```") == Fence + (" " + m + " ") + Fence;
    UnwrapFenced(" " + m + " ");
    SpacedBody(m);
  }

  lemma FencedUnwrap(h: string)
    requires h != [] && Sanitized(h)
    ensures Trim(UnwrapFence("```" + (" " + Labelled(h) + " ```"))) == Labelled(h)
  {
    var m := Labelled(h);
    assert m[0] == '译' && m[|m| - 1] == h[|h| - 1];
    UnwrapSpaced(m);
    TrimOfEdges(m);
  }

  lemma ChineseLabelMisses(h: string)
    ensures AfterLabel(Labelled(h), Labels[0]) == None
    ensures AfterLabel(Labelled(h), Labels[1]) == None
  {
    var m := Labelled(h);
    assert m[0] == '译';
    if |m| >= |Labels[0]| {
      assert Lower(m[..|Labels[0]|])[0] != Lower(Labels[0])[0];
    }
    if |m| >= |Labels[1]| {
      assert Lower(m[..|Labels[1]|])[0] != Lower(Labels[1])[0];
    }
  }

  lemma ChineseLabelHit(h: string)
    requires h != [] && !IsSpace(h[0])
    ensures AfterLabel(Labelled(h), Labels[2]) == Some(h)
  {
    var m := Labelled(h);
    assert m[..2] == Labels[2];
    var c := m[2..];
    assert c == ": " + h;
    TrimStartOfNonSpace(c);
    assert c[1..] == " " + h;
    assert (" " + h)[1..] == h;
    TrimStartOfNonSpace(h);
  }

  lemma ChineseLabel(h: string)
    requires h != [] && !IsSpace(h[0])
    ensures StripLabel(Labelled(h)) == h
  {
    var m := Labelled(h);
    ChineseLabelMisses(h);
    ChineseLabelHit(h);
    assert Labels[1..][1..][0] == Labels[2];
    assert StripFirstLabel(m, Labels[1..][1..]) == h;
    assert Labels[1..][0] == Labels[1];
    assert StripFirstLabel(m, Labels[1..]) == h;
  }

  /** The fence, the label and the surrounding whitespace all go; the
      sentence is what remains. */
  lemma FencedLabelledReply(h: string, author: string)
    requires Sentence(h, author)
    ensures NormalizeTranslation(Fenced(h), author) == h
  {
    FencedSanitize(h);
    var original := Sanitize(Fenced(h));
    FencedUnwrap(h);
    ChineseLabel(h);
    assert TagLength(h) == 0;
    assert Strip(original, author) == h;
    SanitizeOfSanitized(h);
  }

  lemma HelloClean(h: string)
    requires h == "Hello there"
    ensures h != [] && Sanitized(h) && h[0] != '['
  {
    assert NoRuns(h);
  }

  lemma AlicePlain(a: string)
    requires a == "Alice"
    ensures EscapeRegExp(Trim(a)) == a && PatternText(a) == a
  {
    assert forall i :: 0 <= i < |a| ==> !IsRegExpSyntax(a[i]);
    EscapePlain(a);
    TrimOfEdges(a);
  }

  lemma HelloNotFromAlice(h: string, a: string)
    requires h == "Hello there" && a == "Alice"
    ensures StripAuthor(h, a) == h
  {
    AlicePlain(a);
    assert Lower(h[..5])[0] != Lower(a)[0];
  }

  lemma HelloIsSentence(h: string, a: string)
    requires h == "Hello there" && a == "Alice"
    ensures Sentence(h, a)
  {
    HelloClean(h);
    HelloNotFromAlice(h, a);
  }

  lemma HelloThere(text: string, h: string, a: string)
    requires text == "```\n译文: Hello there\n```"
    requires h == "Hello there" && a == "Alice"
    ensures NormalizeTranslation(text, a) == h
  {
    HelloIsSentence(h, a);
    FencedLabelledReply(h, a);
    HelloFenced(text, h);
  }

  lemma HelloFenced(text: string, h: string)
    requires text == "```\n译文: Hello there\n```" && h == "Hello there"
    ensures Fenced(h) == text
  {
    var m := Labelled(h);
    assert |m| == 15;
    assert forall i :: 0 <= i < |text| ==> text[i] == Fenced(h)[i];
  }

  lemma LabelledSanitized(h: string)
    requires h != [] && Sanitized(h)
    ensures Sanitized(Labelled(h))
  {
    LabelledNoRuns(h);
    var m := Labelled(h);
    assert m[0] == '译' && m[|m| - 1] == h[|h| - 1];
  }

  /** One label in front of a clean sentence, with no author given, is
      removed. */
  lemma LabelledOnce(h: string)
    requires h != [] && Sanitized(h) && h[0] != '['
    ensures NormalizeTranslation(Labelled(h), "") == h
  {
    var m := Labelled(h);
    LabelledSanitized(h);
    SanitizeOfSanitized(m);
    assert m[0] == '译';
    assert m[..3][0] == '译';
    assert UnwrapFence(m) == m;
    TrimOfEdges(m);
    ChineseLabel(h);
    assert TagLength(h) == 0;
    assert Strip(m, "") == h;
    SanitizeOfSanitized(h);
  }

  /** `normalizeTranslationText` is not idempotent: it removes one label
      per call, so a doubly labelled sentence loses its second label only
      on a second call. */
  lemma NormalizeNotIdempotent(h: string)
    requires h != [] && Sanitized(h) && h[0] != '['
    ensures var once := NormalizeTranslation(Labelled(Labelled(h)), "");
      once == Labelled(h) && NormalizeTranslation(once, "") == h && h != once
  {
    LabelledSanitized(h);
    assert Labelled(h)[0] == '译';
    LabelledOnce(Labelled(h));
    LabelledOnce(h);
  }
  /** `Name` followed by one of `:`, `：` or `-` and a space opens the text:
      the author prefix goes, whatever the case of its letters. */
  lemma AuthorPrefix(name: string, sep: char, h: string)
    requires IsAuthorSeparator(sep)
    requires h != [] && !IsSpace(h[0])
    ensures StripAuthorPrefix(name + [sep] + " " + h, name) == h
  {
    var s := name + [sep] + " " + h;
    assert s[..|name|] == name;
    assert s[|name|..] == [sep] + " " + h;
    TrimStartOfNonSpace([sep] + " " + h);
    assert ([sep] + " " + h)[1..] == " " + h;
    assert (" " + h)[1..] == h;
    TrimStartOfNonSpace(h);
  }

  /** `[Name]` and a space open the text: the tag of the author goes. */
  lemma AuthorTag(name: string, h: string)
    requires h != [] && !IsSpace(h[0])
    ensures StripAuthorTag("[" + name + "] " + h, name) == h
  {
    var s := "[" + name + "] " + h;
    assert s[1..|name| + 1] == name;
    assert s[|name| + 2..] == " " + h;
    assert (" " + h)[1..] == h;
    TrimStartOfNonSpace(h);
  }

  /** For an author whose trimmed name has no pattern syntax in it, the
      author step removes `Author: ` in front of a sentence. */
  lemma AuthorLabelled(author: string, sep: char, h: string)
    requires author != [] && Trim(author) == author
    requires forall i :: 0 <= i < |author| ==> !IsRegExpSyntax(author[i])
    requires IsAuthorSeparator(sep)
    requires h != [] && !IsSpace(h[0]) && h[0] != '['
    ensures StripAuthor(author + [sep] + " " + h, author) == h
  {
    EscapePlain(author);
    AuthorPrefix(author, sep, h);
  }

  /** For the same authors, the author step removes `[Author] ` in front of
      a sentence. */
  lemma AuthorTagged(author: string, h: string)
    requires author != [] && Trim(author) == author
    requires forall i :: 0 <= i < |author| ==> !IsRegExpSyntax(author[i])
    requires h != [] && !IsSpace(h[0])
    ensures StripAuthor("[" + author + "] " + h, author) == h
  {
    EscapePlain(author);
    var s := "[" + author + "] " + h;
    assert s[0] == '[';
    assert author[0] != '[';
    if |author| <= |s| {
      assert Lower(s[..|author|])[0] != Lower(author)[0];
    }
    assert StripAuthorPrefix(s, author) == s;
    AuthorTag(author, h);
  }

  /** A reply that names its author before the sentence gives the sentence,
      for a clean author name without pattern syntax that does not open
      with a fence character or a label word. */
  lemma AuthorReply(a: string, h: string)
    requires a != [] && Sanitized(a) && a[0] != '`'
    requires forall i :: 0 <= i < |a| ==> !IsRegExpSyntax(a[i])
    requires h != [] && Sanitized(h) && h[0] != '['
    requires StripLabel(a + ": " + h) == a + ": " + h
    ensures NormalizeTranslation(a + ": " + h, a) == h
  {
    var text := a + ": " + h;
    AuthorReplySanitized(a, h);
    SanitizeOfSanitized(text);
    assert text[..3][0] == a[0];
    assert UnwrapFence(text) == text;
    TrimOfEdges(text);
    assert TagLength(text) == 0;
    TrimOfEdges(a);
    assert text == a + [':'] + " " + h;
    AuthorLabelled(a, ':', h);
    assert Strip(text, a) == h;
    SanitizeOfSanitized(h);
  }

  lemma AuthorReplySanitized(a: string, h: string)
    requires a != [] && Sanitized(a)
    requires h != [] && Sanitized(h)
    ensures Sanitized(a + ": " + h)
  {
    assert NoRuns(": ");
    NoRunsAppend(a, ": ");
    NoRunsAppend(a + ": ", h);
    var text := a + ": " + h;
    assert text[0] == a[0] && text[|text| - 1] == h[|h| - 1];
  }

  /** The first characters of `Alice: Hello there` match none of the labels. */
  lemma AliceUnlabelled(text: string)
    requires text == "Alice: Hello there"
    ensures StripLabel(text) == text
  {
    assert text[0] == 'A';
    assert Lower(text[..|Labels[0]|])[0] != Lower(Labels[0])[0];
    assert Lower(text[..|Labels[1]|])[0] != Lower(Labels[1])[0];
    assert Lower(text[..|Labels[2]|])[0] != Lower(Labels[2])[0];
    assert Lower(text[..|Labels[3]|])[0] != Lower(Labels[3])[0];
    assert forall k :: 0 <= k < |Labels| ==> AfterLabel(text, Labels[k]).None?;
  }

  lemma AliceName(a: string)
    requires a == "Alice"
    ensures a != [] && Sanitized(a) && a[0] != '`'
    ensures forall i :: 0 <= i < |a| ==> !IsRegExpSyntax(a[i])
  {
    assert NoRuns(a);
  }

  /** `Alice: Hello there` from author `Alice` gives `Hello there`. */
  lemma AliceSaysHello(text: string, h: string, a: string)
    requires text == "Alice: Hello there" && h == "Hello there" && a == "Alice"
    ensures NormalizeTranslation(text, a) == h
  {
    AliceName(a);
    HelloClean(h);
    assert NoRuns(h);
    AliceUnlabelled(text);
    assert text == a + ": " + h;
    AuthorReply(a, h);
  }

  /** A reply labelled twice with any one label, `l: l: h`, loses only the
      first label: one call strips at most one label. */
  lemma DoubleLabel(k: nat, h: string)
    requires k < |Labels|
    requires h != [] && !IsSpace(h[0])
    ensures StripLabel(Labels[k] + ": " + (Labels[k] + ": " + h)) == Labels[k] + ": " + h
  {
    var l := Labels[k];
    var once := l + ": " + h;
    assert l[0] in "t译翻";
    assert once[0] == l[0];
    SpaceRun(" ");
    LabelStripped(k, l, [], ':', " ", once);
    ColonSpace(l, once);
  }

  lemma ColonSpace(x: string, y: string)
    ensures x + [] + [':'] + " " + y == x + ": " + y
  {
    assert [':'] + " " == ": ";
  }

  lemma SpaceRun(w: string)
    requires w == " "
    ensures forall i :: 0 <= i < |w| ==> IsSpace(w[i])
  {
  }

  /** `translation: translation: h` becomes `translation: h`. */
  lemma DoubleEnglishLabel(l: string, h: string)
    requires l == "translation"
    requires h != [] && !IsSpace(h[0])
    ensures StripLabel(l + ": " + (l + ": " + h)) == l + ": " + h
  {
    assert Labels[0] == l;
    DoubleLabel(0, h);
  }
}
