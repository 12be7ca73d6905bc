/**
 * The string logic of the message renderer (frontend/components/markdown-renderer.tsx):
 * the HTML escape used when highlighting is not available, the font-size class picked
 * from a message's shape, and how a fenced code element is told apart from inline code.
 */
module MarkdownRenderer {
  import opened Wrappers
  import opened Strings

  // ================================================================ escapeHtml

  /** `s.replace(/c/g, rep)` for a single character `c`. */
  function ReplaceChar(s: string, c: char, rep: string): string {
    if s == [] then []
    else ReplaceChar(AllButLast(s), c, rep) + (if Last(s) == c then rep else [Last(s)])
  }

  /** One `.replace(/target/g, replacement)` of the chain. */
  datatype Replacement = Replacement(target: char, replacement: string)

  /** The chain of `escapeHtml`, in order: `&` first, so that the entities added later are not escaped again. */
  const HtmlReplacements: seq<Replacement> := [
    Replacement('&', "&amp;"),
    Replacement('<', "&lt;"),
    Replacement('>', "&gt;"),
    Replacement('"', "&quot;"),
    Replacement('\'', "&#039;")
  ]

  /** The replacements applied one after the other, each to the whole text. */
  function ReplaceChain(s: string, chain: seq<Replacement>): string
    decreases |chain|
  {
    if chain == [] then s
    else ReplaceChain(ReplaceChar(s, chain[0].target, chain[0].replacement), chain[1..])
  }

  /** `escapeHtml` */
  function EscapeHtml(text: string): string {
    ReplaceChain(text, HtmlReplacements)
  }

  /** What each character becomes. */
  function EscapeChar(c: char): string {
    if c == '&' then "&amp;"
    else if c == '<' then "&lt;"
    else if c == '>' then "&gt;"
    else if c == '"' then "&quot;"
    else if c == '\'' then "&#039;"
    else [c]
  }

  /** The escape read one character at a time: a reference definition for the replacement chain. */
  function EscapeEach(text: string): string {
    if text == [] then [] else EscapeEach(AllButLast(text)) + EscapeChar(Last(text))
  }

  predicate HtmlSpecial(c: char) {
    c == '&' || c == '<' || c == '>' || c == '"' || c == '\''
  }

  /** Whether one of the five entities starts at `i`. */
  predicate EntityAt(s: string, i: int) {
    OccursAt(s, "&amp;", i) || OccursAt(s, "&lt;", i) || OccursAt(s, "&gt;", i) ||
    OccursAt(s, "&quot;", i) || OccursAt(s, "&#039;", i)
  }

  lemma {:induction false} ReplaceCharAppend(a: string, b: string, c: char, rep: string)
    ensures ReplaceChar(a + b, c, rep) == ReplaceChar(a, c, rep) + ReplaceChar(b, c, rep)
    decreases |b|
  {
    if b == [] {
      assert a + b == a;
    } else {
      ConcatEnds(a, b);
      ReplaceCharAppend(a, AllButLast(b), c, rep);
      ConcatAssoc(ReplaceChar(a, c, rep), ReplaceChar(AllButLast(b), c, rep),
        if Last(b) == c then rep else [Last(b)]);
    }
  }

  lemma {:induction false} ReplaceCharAbsent(s: string, c: char, rep: string)
    requires c !in s
    ensures ReplaceChar(s, c, rep) == s
  {
    if s != [] {
      assert s == AllButLast(s) + [Last(s)];
      ReplaceCharAbsent(AllButLast(s), c, rep);
    }
  }

  lemma ReplaceCharSingle(x: char, c: char, rep: string)
    ensures ReplaceChar([x], c, rep) == if x == c then rep else [x]
  {
    assert AllButLast([x]) == [];
  }

  /** A chain acts on the two halves of a text separately. */
  lemma {:induction false} ReplaceChainAppend(a: string, b: string, chain: seq<Replacement>)
    ensures ReplaceChain(a + b, chain) == ReplaceChain(a, chain) + ReplaceChain(b, chain)
    decreases |chain|
  {
    if chain != [] {
      var r := chain[0];
      ReplaceCharAppend(a, b, r.target, r.replacement);
      ReplaceChainAppend(ReplaceChar(a, r.target, r.replacement), ReplaceChar(b, r.target, r.replacement), chain[1..]);
    }
  }

  /** A chain leaves alone a text that holds none of its targets. */
  lemma {:induction false} ReplaceChainAbsent(s: string, chain: seq<Replacement>)
    requires forall k :: 0 <= k < |chain| ==> chain[k].target !in s
    ensures ReplaceChain(s, chain) == s
    decreases |chain|
  {
    if chain != [] {
      ReplaceCharAbsent(s, chain[0].target, chain[0].replacement);
      assert forall k :: 0 <= k < |chain[1..]| ==> chain[1..][k] == chain[k + 1];
      ReplaceChainAbsent(s, chain[1..]);
    }
  }

  /** A character that the first replacement does not target passes it unchanged. */
  lemma ReplaceChainSkip(x: char, chain: seq<Replacement>)
    requires chain != [] && chain[0].target != x
    ensures ReplaceChain([x], chain) == ReplaceChain([x], chain[1..])
  {
    ReplaceCharSingle(x, chain[0].target, chain[0].replacement);
  }

  /** A character the first replacement targets becomes its replacement, which the rest of the chain leaves alone. */
  lemma ReplaceChainHit(x: char, chain: seq<Replacement>)
    requires chain != [] && chain[0].target == x
    requires forall k :: 1 <= k < |chain| ==> chain[k].target !in chain[0].replacement
    ensures ReplaceChain([x], chain) == chain[0].replacement
  {
    ReplaceCharSingle(x, chain[0].target, chain[0].replacement);
    assert forall k :: 0 <= k < |chain[1..]| ==> chain[1..][k] == chain[k + 1];
    ReplaceChainAbsent(chain[0].replacement, chain[1..]);
  }

  /** The chain from its `k`-th replacement on. */
  lemma ChainTail(k: nat)
    requires k < |HtmlReplacements|
    ensures HtmlReplacements[k..] == [HtmlReplacements[k]] + HtmlReplacements[k + 1..]
  {
  }

  /** A character the chain targets at `k` becomes that replacement; the rest of the chain leaves it alone. */
  lemma EscapeFrom(x: char, k: nat)
    requires k < |HtmlReplacements|
    requires forall j :: 0 <= j < k ==> HtmlReplacements[j].target != x
    requires HtmlReplacements[k].target == x
    ensures ReplaceChain([x], HtmlReplacements) == HtmlReplacements[k].replacement
  {
    var j := 0;
    while j < k
      invariant j <= k
      invariant ReplaceChain([x], HtmlReplacements) == ReplaceChain([x], HtmlReplacements[j..])
    {
      ChainTail(j);
      ReplaceChainSkip(x, HtmlReplacements[j..]);
      assert HtmlReplacements[j..][1..] == HtmlReplacements[j + 1..];
      j := j + 1;
    }
    ChainTail(k);
    ChainOrdered(k);
    var rest := HtmlReplacements[k..];
    assert forall m :: 1 <= m < |rest| ==> rest[m] == HtmlReplacements[k + m];
    ReplaceChainHit(x, rest);
  }

  /** No replacement adds a character that a later replacement targets. */
  lemma ChainOrdered(k: nat)
    requires k < |HtmlReplacements|
    ensures forall m :: k < m < |HtmlReplacements| ==> HtmlReplacements[m].target !in HtmlReplacements[k].replacement
  {
    var markup := ['<', '>', '"', '\''];
    assert forall m :: 1 <= m < |HtmlReplacements| ==> HtmlReplacements[m].target == markup[m - 1];
    var rep := HtmlReplacements[k].replacement;
    assert rep == "&amp;" || rep == "&lt;" || rep == "&gt;" || rep == "&quot;" || rep == "&#039;";
    forall c | c in rep
      ensures c !in markup
    {
    }
  }

  /** Each character goes through the chain on its own. */
  lemma EscapeHtmlChar(x: char)
    ensures EscapeHtml([x]) == EscapeChar(x)
  {
    var chain := HtmlReplacements;
    if x == '&' {
      EscapeFrom(x, 0);
    } else if x == '<' {
      EscapeFrom(x, 1);
    } else if x == '>' {
      EscapeFrom(x, 2);
    } else if x == '"' {
      EscapeFrom(x, 3);
    } else if x == '\'' {
      EscapeFrom(x, 4);
    } else {
      ReplaceChainAbsent([x], chain);
    }
  }

  /** The replacement chain escapes each character independently of its neighbours. */
  lemma {:induction false} EscapeHtmlIsEscapeEach(text: string)
    ensures EscapeHtml(text) == EscapeEach(text)
  {
    if text == [] {
      ReplaceChainAbsent(text, HtmlReplacements);
    } else {
      EscapeHtmlIsEscapeEach(AllButLast(text));
      assert text == AllButLast(text) + [Last(text)];
      ReplaceChainAppend(AllButLast(text), [Last(text)], HtmlReplacements);
      EscapeHtmlChar(Last(text));
    }
  }

  lemma EntityAtExtend(s: string, t: string, i: int)
    requires EntityAt(s, i)
    ensures EntityAt(s + t, i)
  {
  }

  /** Facts about one escaped character: not empty, none of the four characters, and an `&` only as the start of its entity. */
  lemma EscapeCharFacts(x: char)
    ensures var e := EscapeChar(x);
      |e| >= 1 &&
      (forall j :: 0 <= j < |e| ==> e[j] != '<' && e[j] != '>' && e[j] != '"' && e[j] != '\'') &&
      (forall j :: 0 < j < |e| ==> e[j] != '&') &&
      (e[0] == '&' ==> e in {"&amp;", "&lt;", "&gt;", "&quot;", "&#039;"})
  {
  }

  lemma EntityAtJoin(p: string, e: string)
    requires e in {"&amp;", "&lt;", "&gt;", "&quot;", "&#039;"}
    ensures EntityAt(p + e, |p|)
  {
    assert OccursAt(p + e, e, |p|);
  }

  /** The escaped text holds none of `<`, `>`, `"` and `'`, and it is never shorter than the text. */
  lemma {:induction false} EscapeHtmlSafe(text: string)
    ensures var r := EscapeHtml(text);
      |r| >= |text| &&
      (forall i :: 0 <= i < |r| ==> r[i] != '<' && r[i] != '>' && r[i] != '"' && r[i] != '\'')
  {
    EscapeHtmlIsEscapeEach(text);
    EscapeEachSafe(text);
  }

  lemma {:induction false} EscapeEachSafe(text: string)
    ensures var r := EscapeEach(text);
      |r| >= |text| &&
      (forall i :: 0 <= i < |r| ==> r[i] != '<' && r[i] != '>' && r[i] != '"' && r[i] != '\'')
  {
    if text != [] {
      EscapeEachSafe(AllButLast(text));
      EscapeCharFacts(Last(text));
    }
  }

  /** Every `&` in `s` starts one of the five entities. */
  predicate AmpersandsStartEntities(s: string) {
    forall i :: 0 <= i < |s| && s[i] == '&' ==> EntityAt(s, i)
  }

  /** Every `&` in the escaped text starts one of the five entities. */
  lemma {:induction false} EscapeHtmlEntities(text: string)
    ensures AmpersandsStartEntities(EscapeHtml(text))
  {
    EscapeHtmlIsEscapeEach(text);
    EscapeEachEntities(text);
  }

  lemma {:induction false} EscapeEachEntities(text: string)
    ensures AmpersandsStartEntities(EscapeEach(text))
  {
    if text != [] {
      var p := EscapeEach(AllButLast(text));
      var e := EscapeChar(Last(text));
      EscapeEachEntities(AllButLast(text));
      EscapeCharFacts(Last(text));
      var r := p + e;
      forall i | 0 <= i < |r| && r[i] == '&'
        ensures EntityAt(r, i)
      {
        if i < |p| {
          assert p[i] == '&';
          assert AmpersandsStartEntities(p);
          EntityAtExtend(p, e, i);
        } else {
          assert e[i - |p|] == '&';
          EntityAtJoin(p, e);
        }
      }
    }
  }

  /** Text without any of the five characters is left as it is. */
  lemma EscapeHtmlPlain(text: string)
    requires forall i :: 0 <= i < |text| ==> !HtmlSpecial(text[i])
    ensures EscapeHtml(text) == text
  {
    ReplaceChainAbsent(text, HtmlReplacements);
  }

  // ================================================================ font size

  const LargeText: string := "[&>*]:!text-lg sm:[&>*]:!text-xl"
  const BaseText: string := "[&>*]:!text-base sm:[&>*]:!text-lg"

  /** `content.split('\n').length` */
  function LineCount(content: string): (n: nat)
    ensures n == Count(content, '\n') + 1
  {
    SplitLength(content, '\n');
    |Split(content, '\n')|
  }

  lemma {:induction false} CountZero(s: string, c: char)
    ensures Count(s, c) == 0 <==> c !in s
  {
    if s != [] {
      CountZero(AllButLast(s), c);
      assert s == AllButLast(s) + [Last(s)];
    }
  }

  /**
   * `getMessageFontSizeClass`: the large class for a single line of at most 20
   * characters, the base class for a single line of at most 120, and none otherwise.
   */
  function MessageFontSizeClass(content: string): (r: string)
    ensures r == LargeText <==> |content| <= 20 && '\n' !in content
    ensures r == BaseText <==> 20 < |content| <= 120 && '\n' !in content
    ensures r == "" <==> 120 < |content| || '\n' in content
  {
    var lines := LineCount(content);
    CountZero(content, '\n');
    if |content| <= 20 && lines == 1 then LargeText
    else if |content| <= 120 && lines == 1 then BaseText
    else ""
  }

  // ================================================================ code elements

  /** `s.indexOf(p, from)` as a search from `from` on. */
  function IndexFrom(s: string, p: string, from: nat): (r: int)
    ensures r == -1 || (from <= r && OccursAt(s, p, r))
    decreases |s| - from
  {
    if from + |p| > |s| then -1
    else if OccursAt(s, p, from) then from
    else IndexFrom(s, p, from + 1)
  }

  /** `s.replace(p, "")` with a string pattern: removes the first occurrence only. */
  function RemoveFirst(s: string, p: string): string {
    var i := IndexFrom(s, p, 0);
    if i < 0 then s else s[..i] + s[i + |p|..]
  }

  const LanguagePrefix: string := "language-"

  datatype CodeView = Block(code: string, language: string) | Inline(code: string)

  /** `String(children).replace(/\n$/, '')`: one newline at the very end is dropped. */
  function StripFinalNewline(code: string): (r: string)
    ensures code == r || code == r + "\n"
    ensures |code| > 0 && code[|code| - 1] == '\n' ==> code == r + "\n"
  {
    if |code| > 0 && code[|code| - 1] == '\n' then code[..|code| - 1] else code
  }

  /** `CodeRenderer`: a block with its language when the class starts with `language-`, inline code otherwise. */
  function CodeRenderer(children: string, className: Option<string>): (v: CodeView)
    ensures v.Block? <==> className.Some? && StartsWith(className.value, LanguagePrefix)
    ensures v.Block? ==> v.language == className.value[|LanguagePrefix|..]
    ensures |children| > 0 && children[|children| - 1] == '\n' ==> children == v.code + "\n"
    ensures !(|children| > 0 && children[|children| - 1] == '\n') ==> v.code == children
  {
    var code := StripFinalNewline(children);
    if className.Some? && StartsWith(className.value, LanguagePrefix) then
      var language := RemoveFirst(className.value, LanguagePrefix);
      assert OccursAt(className.value, LanguagePrefix, 0);
      Block(code, language)
    else Inline(code)
  }

  /** A code block never keeps more than one of its closing newlines out, and a second one stays. */
  lemma StripFinalNewlineOnce(code: string)
    requires |code| >= 2 && code[|code| - 1] == '\n' && code[|code| - 2] == '\n'
    ensures var r := StripFinalNewline(code); |r| == |code| - 1 && r[|r| - 1] == '\n'
  {
  }
}
