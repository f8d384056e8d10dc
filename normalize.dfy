/** Answer normalisation of the VQA evaluation script (evaluation/eval_acc_f1.py):
    `normalize_answer` with its four inner helpers, `get_tokens` and `normalize_text`.

    Characters are classified as in ASCII: the model gives Python's `str.lower`,
    `str.isspace`, `string.punctuation` and the regular-expression word class `\w`
    their ASCII meaning and treats every other character as an ordinary,
    non-word, non-space, non-punctuation character that `lower` leaves alone. */
module Normalize {

  // ---------------------------------------------------------------------------
  // Character classes
  // ---------------------------------------------------------------------------

  /** Python's `str.isspace` on ASCII: space, tab, line feed, vertical tab,
      form feed, carriage return and the four separators 0x1C..0x1F. */
  predicate IsSpace(c: char) {
    c == ' ' || ('\t' <= c <= '\r') || ('\U{1C}' <= c <= '\U{1F}')
  }

  predicate IsUpper(c: char) {
    'A' <= c <= 'Z'
  }

  /** The regular-expression class `\w` on ASCII. */
  predicate IsWordChar(c: char) {
    ('a' <= c <= 'z') || ('A' <= c <= 'Z') || ('0' <= c <= '9') || c == '_'
  }

  /** Python's `string.punctuation`: the 32 printable ASCII characters that are
      neither letters, digits nor space, which are exactly these four ranges. */
  predicate IsPunct(c: char) {
    ('!' <= c <= '/') || (':' <= c <= '@') || ('[' <= c <= '`') || ('{' <= c <= '~')
  }

  /** Ordinary text: printable ASCII or ASCII white space (no other control
      characters). */
  predicate IsTextChar(c: char) {
    IsWordChar(c) || IsSpace(c) || IsPunct(c)
  }

  /** The characters left in ordinary text after lower-casing and removing
      punctuation, apart from white space. */
  predicate IsNormalChar(c: char) {
    ('a' <= c <= 'z') || ('0' <= c <= '9')
  }

  predicate AnyChar(c: char) { true }
  predicate NotSpace(c: char) { !IsSpace(c) }
  predicate NotUpper(c: char) { !IsUpper(c) }
  predicate NotPunct(c: char) { !IsPunct(c) }
  predicate IsWordOrSpace(c: char) { IsWordChar(c) || IsSpace(c) }
  predicate IsNormalOrSpace(c: char) { IsNormalChar(c) || IsSpace(c) }

  /** Every character of `s` is in class `P`. */
  predicate AllChars(s: string, P: char -> bool) {
    forall i :: 0 <= i < |s| ==> P(s[i])
  }

  /** What `str.split()` produces: a non-empty run without white space. */
  predicate IsToken(t: string) {
    t != [] && AllChars(t, NotSpace)
  }

  predicate IsArticle(w: string) {
    w == "a" || w == "an" || w == "the"
  }

  /** Python's `string.punctuation`, character for character. */
  const Punctuation: string := "!\"#$%&'()*+,-./:;<=>?@[\\]^_`{|}~"

  /** `IsPunct` holds exactly for the 32 characters of `string.punctuation`. */
  lemma PunctuationIsIsPunct()
    ensures |Punctuation| == 32
    ensures forall c :: IsPunct(c) <==> c in Punctuation
  {
    assert AllChars(Punctuation, IsPunct);
    forall c | IsPunct(c)
      ensures c in Punctuation
    {
      var k := if c <= '/' then c as int - '!' as int
               else if c <= '@' then 15 + c as int - ':' as int
               else if c <= '`' then 22 + c as int - '[' as int
               else 28 + c as int - '{' as int;
      assert Punctuation[k] == c;
    }
  }

  // ---------------------------------------------------------------------------
  // The four transforms of normalize_answer
  // ---------------------------------------------------------------------------

  function Lower(c: char): char {
    if IsUpper(c) then (c as int + 32) as char else c
  }

  /** `lower(text)` */
  function LowerStr(s: string): string {
    seq(|s|, i requires 0 <= i < |s| => Lower(s[i]))
  }

  /** `remove_punc(text)`: keeps the characters that are not punctuation, in order. */
  function RemovePunc(s: string): string {
    if s == [] then []
    else (if IsPunct(s[0]) then [] else [s[0]]) + RemovePunc(s[1..])
  }

  /** The pattern `\b(a|an|the)\b` matches the word `w` at the start of `s`,
      given that the start is preceded by a non-word character or nothing. */
  predicate MatchesAt(s: string, w: string) {
    |w| <= |s| && s[..|w|] == w && (|w| == |s| || !IsWordChar(s[|w|]))
  }

  predicate ArticleAt(s: string) {
    MatchesAt(s, "a") || MatchesAt(s, "an") || MatchesAt(s, "the")
  }

  function ArticleLen(s: string): (n: nat)
    requires ArticleAt(s)
    ensures 1 <= n <= |s|
  {
    if MatchesAt(s, "a") then 1 else if MatchesAt(s, "an") then 2 else 3
  }

  /** `re.sub(r"\b(a|an|the)\b", " ", text)` scanning `s` left to right;
      `afterWord` says whether the character just before `s` in the original
      text is a word character (then no word boundary precedes `s`). */
  function RemoveArticlesFrom(s: string, afterWord: bool): string
    decreases |s|
  {
    if s == [] then []
    else if !afterWord && ArticleAt(s) then
      " " + RemoveArticlesFrom(s[ArticleLen(s)..], true)
    else
      [s[0]] + RemoveArticlesFrom(s[1..], IsWordChar(s[0]))
  }

  /** `remove_articles(text)` */
  function RemoveArticles(s: string): string {
    RemoveArticlesFrom(s, false)
  }

  /** Length of the leading run of non-space characters of `s`. */
  function WordEnd(s: string): (n: nat)
    ensures n <= |s|
    ensures forall i :: 0 <= i < n ==> !IsSpace(s[i])
    ensures n == |s| || IsSpace(s[n])
  {
    if s == [] || IsSpace(s[0]) then 0 else 1 + WordEnd(s[1..])
  }

  /** Python's `str.split()` with no separator: the maximal runs of non-space
      characters. */
  function Split(s: string): seq<string>
    decreases |s|
  {
    if s == [] then []
    else if IsSpace(s[0]) then Split(s[1..])
    else [s[..WordEnd(s)]] + Split(s[WordEnd(s)..])
  }

  /** `" ".join(toks)` */
  function Join(toks: seq<string>): string {
    if toks == [] then ""
    else if |toks| == 1 then toks[0]
    else toks[0] + " " + Join(toks[1..])
  }

  /** `white_space_fix(text)` */
  function WhiteSpaceFix(s: string): string {
    Join(Split(s))
  }

  /** `normalize_answer(s)` */
  function NormalizeAnswer(s: string): string {
    WhiteSpaceFix(RemoveArticles(RemovePunc(LowerStr(s))))
  }

  /** `get_tokens(s)` */
  function GetTokens(s: string): seq<string> {
    if s == [] then [] else Split(NormalizeAnswer(s))
  }

  /** Drops the tokens "a", "an" and "the", keeping the others in order. */
  function FilterArticles(toks: seq<string>): (r: seq<string>)
    ensures forall t :: t in r ==> t in toks && !IsArticle(t)
  {
    if toks == [] then []
    else (if IsArticle(toks[0]) then [] else [toks[0]]) + FilterArticles(toks[1..])
  }

  // ---------------------------------------------------------------------------
  // normalize_text
  // ---------------------------------------------------------------------------

  /** Drops the leading white space, and only that. */
  function StripLeft(s: string): (r: string)
    ensures |r| <= |s| && r == s[|s| - |r|..]
    ensures forall i :: 0 <= i < |s| - |r| ==> IsSpace(s[i])
    ensures r == [] || !IsSpace(r[0])
  {
    if s != [] && IsSpace(s[0]) then StripLeft(s[1..]) else s
  }

  /** Drops the trailing white space, and only that. */
  function StripRight(s: string): (r: string)
    ensures |r| <= |s| && r == s[..|r|]
    ensures forall i :: |r| <= i < |s| ==> IsSpace(s[i])
    ensures r == [] || !IsSpace(r[|r| - 1])
  {
    if s != [] && IsSpace(s[|s| - 1]) then StripRight(s[..|s| - 1]) else s
  }

  /** `text.strip()`: neither end of the result is white space. */
  function Strip(s: string): (r: string)
    ensures r == [] || (!IsSpace(r[0]) && !IsSpace(r[|r| - 1]))
  {
    StripRight(StripLeft(s))
  }

  /** `text.replace(c, "")`: every other character is kept. */
  function RemoveChar(s: string, c: char): (r: string)
    ensures forall x :: x in r <==> x in s && x != c
  {
    if s == [] then []
    else (if s[0] == c then [] else [s[0]]) + RemoveChar(s[1..], c)
  }

  /** `normalize_text(text)` for a text that is already a string. */
  function NormalizeText(s: string): string {
    RemoveChar(Strip(s), '\'')
  }

  // ---------------------------------------------------------------------------
  // Character classes through the transforms
  // ---------------------------------------------------------------------------

  /** `lower` keeps the length, leaves no upper-case letter and changes no
      other character. */
  lemma LowerStrChars(s: string)
    ensures |LowerStr(s)| == |s| && AllChars(LowerStr(s), NotUpper)
    ensures forall i :: 0 <= i < |s| && !IsUpper(s[i]) ==> LowerStr(s)[i] == s[i]
    ensures AllChars(s, IsTextChar) ==> AllChars(LowerStr(s), IsTextChar)
  {
  }

  lemma {:induction false} RemovePuncChars(s: string, P: char -> bool)
    requires AllChars(s, P)
    ensures AllChars(RemovePunc(s), P)
    ensures AllChars(RemovePunc(s), NotPunct)
  {
    if s != [] {
      RemovePuncChars(s[1..], P);
    }
  }

  /** A character survives `remove_punc` exactly when it is not punctuation. */
  lemma {:induction false} RemovePuncMembers(s: string)
    ensures forall c :: c in RemovePunc(s) <==> c in s && !IsPunct(c)
  {
    if s != [] {
      RemovePuncMembers(s[1..]);
      assert s == [s[0]] + s[1..];
    }
  }

  lemma {:induction false} RemoveArticlesChars(s: string, afterWord: bool, P: char -> bool)
    requires AllChars(s, P) && P(' ')
    ensures AllChars(RemoveArticlesFrom(s, afterWord), P)
    decreases |s|
  {
    if s == [] {
    } else if !afterWord && ArticleAt(s) {
      RemoveArticlesChars(s[ArticleLen(s)..], true, P);
    } else {
      RemoveArticlesChars(s[1..], IsWordChar(s[0]), P);
    }
  }

  /** Every piece `str.split()` returns is a token made of characters of its
      input. */
  lemma {:induction false} SplitChars(s: string, P: char -> bool)
    requires AllChars(s, P)
    ensures forall t :: t in Split(s) ==> IsToken(t) && AllChars(t, P)
    decreases |s|
  {
    if s == [] {
    } else if IsSpace(s[0]) {
      SplitChars(s[1..], P);
    } else {
      SplitChars(s[WordEnd(s)..], P);
    }
  }

  lemma {:induction false} JoinChars(toks: seq<string>, P: char -> bool)
    requires P(' ') && forall t :: t in toks ==> AllChars(t, P)
    ensures AllChars(Join(toks), P)
  {
    if toks != [] {
      assert toks[0] in toks;
    }
    if |toks| > 1 {
      assert forall t :: t in toks[1..] ==> t in toks;
      JoinChars(toks[1..], P);
    }
  }

  // ---------------------------------------------------------------------------
  // Split and Join
  // ---------------------------------------------------------------------------

  lemma {:induction false} WordEndOfPrefix(w: string, y: string)
    requires AllChars(w, NotSpace)
    requires y == [] || IsSpace(y[0])
    ensures WordEnd(w + y) == |w|
    decreases |w|
  {
    if w != [] {
      assert (w + y)[1..] == w[1..] + y;
      WordEndOfPrefix(w[1..], y);
    }
  }

  /** A token followed by a space (or nothing) is the first piece. */
  lemma SplitPrefix(w: string, y: string)
    requires IsToken(w)
    requires y == [] || IsSpace(y[0])
    ensures Split(w + y) == [w] + Split(y)
  {
    WordEndOfPrefix(w, y);
    assert (w + y)[..|w|] == w && (w + y)[|w|..] == y;
  }

  lemma SplitLeadingSpace(c: char, y: string)
    requires IsSpace(c)
    ensures Split([c] + y) == Split(y)
  {
    assert ([c] + y)[1..] == y;
  }

  /** `str.split()` recovers the tokens that `" ".join` put together. */
  lemma {:induction false} SplitJoin(toks: seq<string>)
    requires forall t :: t in toks ==> IsToken(t)
    ensures Split(Join(toks)) == toks
  {
    if toks == [] {
    } else if |toks| == 1 {
      assert toks[0] in toks;
      SplitPrefix(toks[0], []);
      assert toks[0] + [] == toks[0];
    } else {
      var rest := Join(toks[1..]);
      assert toks[0] in toks;
      assert forall t :: t in toks[1..] ==> t in toks;
      assert toks[0] + " " + rest == toks[0] + (" " + rest);
      SplitPrefix(toks[0], " " + rest);
      SplitLeadingSpace(' ', rest);
      SplitJoin(toks[1..]);
    }
  }

  // ---------------------------------------------------------------------------
  // Removing articles from words and white space
  // ---------------------------------------------------------------------------

  /** The scan copies a run of word characters that does not start at a word
      boundary. */
  lemma {:induction false} CopyWord(x: string, rest: string)
    requires AllChars(x, IsWordChar)
    ensures RemoveArticlesFrom(x + rest, true) == x + RemoveArticlesFrom(rest, true)
    decreases |x|
  {
    if x != [] {
      assert (x + rest)[0] == x[0];
      assert (x + rest)[1..] == x[1..] + rest;
      calc {
        RemoveArticlesFrom(x + rest, true);
        [x[0]] + RemoveArticlesFrom(x[1..] + rest, true);
        { CopyWord(x[1..], rest); }
        [x[0]] + (x[1..] + RemoveArticlesFrom(rest, true));
        { assert x == [x[0]] + x[1..]; }
        x + RemoveArticlesFrom(rest, true);
      }
    } else {
      assert x + rest == rest;
    }
  }

  /** Before a non-word character the "after a word" flag is irrelevant. */
  lemma FlagIrrelevant(s: string)
    requires s == [] || !IsWordChar(s[0])
    ensures RemoveArticlesFrom(s, true) == RemoveArticlesFrom(s, false)
  {
    if s != [] {
      assert !MatchesAt(s, "a") && !MatchesAt(s, "an") && !MatchesAt(s, "the") by {
        assert forall w: string :: MatchesAt(s, w) && w != [] ==> s[0] == w[0];
      }
    }
  }

  /** A run of `k` non-space characters ending at a space or at the end is
      what WordEnd finds. */
  lemma {:induction false} WordEndAt(s: string, k: nat)
    requires k <= |s|
    requires forall i :: 0 <= i < k ==> !IsSpace(s[i])
    requires k == |s| || IsSpace(s[k])
    ensures WordEnd(s) == k
    decreases k
  {
    if k > 0 {
      WordEndAt(s[1..], k - 1);
    }
  }

  lemma MatchesFirstWord(s: string, w: string)
    requires AllChars(s, IsWordOrSpace)
    requires w != [] && AllChars(w, IsWordChar)
    ensures MatchesAt(s, w) <==> s[..WordEnd(s)] == w
  {
    var n := WordEnd(s);
    if MatchesAt(s, w) {
      assert forall i :: 0 <= i < |w| ==> s[i] == w[i];
      WordEndAt(s, |w|);
    }
  }

  /** The scan sees an article exactly when the first word is one. */
  lemma ArticleAtFirstWord(s: string)
    requires AllChars(s, IsWordOrSpace)
    ensures ArticleAt(s) <==> IsArticle(s[..WordEnd(s)])
    ensures ArticleAt(s) ==> ArticleLen(s) == WordEnd(s)
  {
    MatchesFirstWord(s, "a");
    MatchesFirstWord(s, "an");
    MatchesFirstWord(s, "the");
  }

  lemma KeepWord(w: string, rest: string)
    requires w != [] && AllChars(w, IsWordChar)
    requires !ArticleAt(w + rest)
    ensures RemoveArticles(w + rest) == w + RemoveArticlesFrom(rest, true)
  {
    assert (w + rest)[0] == w[0];
    assert (w + rest)[1..] == w[1..] + rest;
    calc {
      RemoveArticles(w + rest);
      [w[0]] + RemoveArticlesFrom(w[1..] + rest, true);
      { CopyWord(w[1..], rest); }
      [w[0]] + (w[1..] + RemoveArticlesFrom(rest, true));
      ([w[0]] + w[1..]) + RemoveArticlesFrom(rest, true);
      { assert w == [w[0]] + w[1..]; }
      w + RemoveArticlesFrom(rest, true);
    }
  }

  /** After the first word of `s` comes white space or nothing. */
  lemma AfterFirstWord(s: string)
    ensures var rest := s[WordEnd(s)..]; rest == [] || !IsWordChar(rest[0])
  {
    var n := WordEnd(s);
    if n < |s| {
      assert s[n..][0] == s[n];
    }
  }

  /** Over words and white space, the scan replaces a first word that is an
      article by a space ... */
  lemma FirstWordDropped(s: string)
    requires AllChars(s, IsWordOrSpace)
    requires s != [] && !IsSpace(s[0])
    requires IsArticle(s[..WordEnd(s)])
    ensures RemoveArticles(s) == " " + RemoveArticles(s[WordEnd(s)..])
  {
    var rest := s[WordEnd(s)..];
    AfterFirstWord(s);
    FlagIrrelevant(rest);
    ArticleAtFirstWord(s);
    assert RemoveArticles(s) == " " + RemoveArticlesFrom(rest, true);
  }

  /** ... and keeps any other first word. */
  lemma FirstWordKept(s: string)
    requires AllChars(s, IsWordOrSpace)
    requires s != [] && !IsSpace(s[0])
    requires !IsArticle(s[..WordEnd(s)])
    ensures RemoveArticles(s) == s[..WordEnd(s)] + RemoveArticles(s[WordEnd(s)..])
  {
    var n := WordEnd(s);
    var w, rest := s[..n], s[n..];
    SplitAt(s, n);
    assert AllChars(w, IsWordChar) by { FirstWordChars(s); }
    assert !ArticleAt(w + rest) by { ArticleAtFirstWord(s); }
    calc {
      RemoveArticles(s);
      RemoveArticles(w + rest);
      { KeepWord(w, rest); }
      w + RemoveArticlesFrom(rest, true);
      { AfterFirstWord(s); FlagIrrelevant(rest); }
      w + RemoveArticles(rest);
    }
  }


  lemma SplitAt(s: string, n: nat)
    requires n <= |s|
    ensures s == s[..n] + s[n..]
  {
  }

  lemma FirstWordChars(s: string)
    requires AllChars(s, IsWordOrSpace)
    ensures AllChars(s[..WordEnd(s)], IsWordChar)
  {
  }


  /** Over words and white space, removing articles and then splitting is the
      same as splitting and then dropping the article tokens. */
  lemma {:induction false} RemoveArticlesSplit(s: string)
    requires AllChars(s, IsWordOrSpace)
    ensures Split(RemoveArticles(s)) == FilterArticles(Split(s))
    decreases |s|
  {
    if s == [] {
    } else if IsSpace(s[0]) {
      FlagIrrelevant(s);
      assert RemoveArticles(s) == [s[0]] + RemoveArticles(s[1..]);
      SplitLeadingSpace(s[0], RemoveArticles(s[1..]));
      RemoveArticlesSplit(s[1..]);
    } else {
      var n := WordEnd(s);
      var w, rest := s[..n], s[n..];
      var y := RemoveArticles(rest);
      assert y == [] || IsSpace(y[0]) by {
        AfterFirstWord(s);
        FlagIrrelevant(rest);
      }
      assert IsToken(w);
      calc {
        Split(RemoveArticles(s));
        { if IsArticle(w) { FirstWordDropped(s); } else { FirstWordKept(s); } }
        Split((if IsArticle(w) then " " else w) + y);
        { if IsArticle(w) { SplitLeadingSpace(' ', y); } else { SplitPrefix(w, y); } }
        (if IsArticle(w) then [] else [w]) + Split(y);
        { RemoveArticlesSplit(rest); }
        (if IsArticle(w) then [] else [w]) + FilterArticles(Split(rest));
        { assert ([w] + Split(rest))[1..] == Split(rest); }
        FilterArticles([w] + Split(rest));
        FilterArticles(Split(s));
      }
    }
  }

  // ---------------------------------------------------------------------------
  // Removing articles leaves none, on any text
  // ---------------------------------------------------------------------------

  /** The leading run of word characters of `s`. */
  function LeadWord(s: string): (w: string)
    ensures |w| <= |s| && w == s[..|w|] && AllChars(w, IsWordChar)
    ensures |w| == |s| || !IsWordChar(s[|w|])
  {
    if s == [] || !IsWordChar(s[0]) then [] else [s[0]] + LeadWord(s[1..])
  }

  /** A word of word characters matches at the start of `s` exactly when it
      is the leading run of word characters. */
  lemma MatchesLeadWord(s: string, w: string)
    requires AllChars(w, IsWordChar)
    ensures MatchesAt(s, w) <==> LeadWord(s) == w
  {
    var l := LeadWord(s);
    if MatchesAt(s, w) {
      assert forall i :: 0 <= i < |w| ==> s[i] == w[i];
      assert |l| >= |w|;
      assert l == s[..|w|];
    }
  }

  /** The scan sees an article exactly when the leading word is one, and then
      removes just that word. */
  lemma ArticleAtLead(s: string)
    ensures ArticleAt(s) <==> IsArticle(LeadWord(s))
    ensures ArticleAt(s) ==> ArticleLen(s) == |LeadWord(s)|
  {
    MatchesLeadWord(s, "a");
    MatchesLeadWord(s, "an");
    MatchesLeadWord(s, "the");
  }

  /** A non-word character ends the leading word. */
  lemma {:induction false} LeadWordAppend(a: string, z: string)
    requires z == [] || !IsWordChar(z[0])
    ensures LeadWord(a + z) == LeadWord(a)
    decreases |a|
  {
    if a == [] {
      assert a + z == z;
    } else {
      assert (a + z)[0] == a[0] && (a + z)[1..] == a[1..] + z;
      LeadWordAppend(a[1..], z);
    }
  }

  /** No word of `s` that starts at a word boundary is an article; `afterWord`
      as in `RemoveArticlesFrom`. */
  predicate NoArticle(s: string, afterWord: bool)
    decreases |s|
  {
    s == [] || ((afterWord || !ArticleAt(s)) && NoArticle(s[1..], IsWordChar(s[0])))
  }

  /** The scan leaves text without articles unchanged. */
  lemma {:induction false} NoArticleId(s: string, afterWord: bool)
    requires NoArticle(s, afterWord)
    ensures RemoveArticlesFrom(s, afterWord) == s
    decreases |s|
  {
    if s != [] {
      NoArticleId(s[1..], IsWordChar(s[0]));
      assert s == [s[0]] + s[1..];
    }
  }

  /** Where the scan does not match, it keeps the leading word. */
  lemma {:induction false} LeadWordKept(s: string, afterWord: bool)
    requires afterWord || !ArticleAt(s)
    ensures LeadWord(RemoveArticlesFrom(s, afterWord)) == LeadWord(s)
    decreases |s|
  {
    if s != [] {
      var r := RemoveArticlesFrom(s[1..], IsWordChar(s[0]));
      assert RemoveArticlesFrom(s, afterWord) == [s[0]] + r;
      assert ([s[0]] + r)[1..] == r;
      if IsWordChar(s[0]) {
        LeadWordKept(s[1..], true);
      }
    }
  }

  /** Before a non-word character the flag does not matter. */
  lemma NoArticleFlag(z: string)
    requires z == [] || !IsWordChar(z[0])
    ensures NoArticle(z, true) == NoArticle(z, false)
  {
    ArticleAtLead(z);
  }

  /** A string beginning with white space is free of articles when its rest is. */
  lemma NoArticleAfterSpace(c: char, y: string)
    requires IsSpace(c)
    ensures NoArticle([c] + y, false) == NoArticle(y, false)
  {
    ArticleAtLead([c] + y);
    assert ([c] + y)[1..] == y;
  }

  /** Whatever the scan returns holds no article at a word boundary: a match
      is never followed by a word character, and elsewhere the leading words
      are kept. */
  lemma {:induction false} ScanLeavesNoArticle(s: string, afterWord: bool)
    ensures NoArticle(RemoveArticlesFrom(s, afterWord), afterWord)
    decreases |s|
  {
    if s == [] {
    } else if !afterWord && ArticleAt(s) {
      var rest := s[ArticleLen(s)..];
      var y := RemoveArticlesFrom(rest, true);
      ScanLeavesNoArticle(rest, true);
      ArticleAtLead(s);
      assert rest == [] || !IsWordChar(rest[0]) by {
        if rest != [] {
          assert rest[0] == s[|LeadWord(s)|];
        }
      }
      LeadWordKept(rest, true);
      assert y == [] || !IsWordChar(y[0]);
      NoArticleFlag(y);
      NoArticleAfterSpace(' ', y);
    } else {
      var r := RemoveArticlesFrom(s[1..], IsWordChar(s[0]));
      ScanLeavesNoArticle(s[1..], IsWordChar(s[0]));
      var out := [s[0]] + r;
      assert RemoveArticlesFrom(s, afterWord) == out;
      assert out[1..] == r && out[0] == s[0];
      if !afterWord {
        LeadWordKept(s, afterWord);
        ArticleAtLead(s);
        ArticleAtLead(out);
      }
    }
  }

  /** Text followed by a non-word character is free of articles exactly when
      both parts are. */
  lemma {:induction false} NoArticleAppend(a: string, z: string, afterWord: bool)
    requires z == [] || !IsWordChar(z[0])
    ensures NoArticle(a + z, afterWord) <==> NoArticle(a, afterWord) && NoArticle(z, false)
    decreases |a|
  {
    if a == [] {
      assert a + z == z;
      NoArticleFlag(z);
    } else {
      assert (a + z)[0] == a[0] && (a + z)[1..] == a[1..] + z;
      LeadWordAppend(a, z);
      ArticleAtLead(a + z);
      ArticleAtLead(a);
      NoArticleAppend(a[1..], z, IsWordChar(a[0]));
    }
  }

  /** Every token of a text free of articles is free of articles. */
  lemma {:induction false} SplitNoArticle(y: string)
    requires NoArticle(y, false)
    ensures forall t :: t in Split(y) ==> NoArticle(t, false)
    decreases |y|
  {
    if y == [] {
    } else if IsSpace(y[0]) {
      NoArticleAfterSpace(y[0], y[1..]);
      assert y == [y[0]] + y[1..];
      SplitNoArticle(y[1..]);
    } else {
      var n := WordEnd(y);
      var w, rest := y[..n], y[n..];
      assert y == w + rest;
      NoArticleAppend(w, rest, false);
      SplitNoArticle(rest);
    }
  }

  /** Joining tokens free of articles gives text free of articles. */
  lemma {:induction false} JoinNoArticle(toks: seq<string>)
    requires forall t :: t in toks ==> NoArticle(t, false)
    ensures NoArticle(Join(toks), false)
  {
    if toks != [] {
      assert toks[0] in toks;
    }
    if |toks| > 1 {
      var rest := Join(toks[1..]);
      assert forall t :: t in toks[1..] ==> t in toks;
      JoinNoArticle(toks[1..]);
      NoArticleAfterSpace(' ', rest);
      assert toks[0] + " " + rest == toks[0] + (" " + rest);
      NoArticleAppend(toks[0], " " + rest, false);
    }
  }

  /** An article on its own is never free of articles. */
  lemma NotArticleWhenClean(t: string)
    requires NoArticle(t, false)
    ensures !IsArticle(t)
  {
    if IsArticle(t) {
      MatchesLeadWord(t, t);
      ArticleAtLead(t);
    }
  }

  // ---------------------------------------------------------------------------
  // Properties of normalize_answer and get_tokens
  // ---------------------------------------------------------------------------

  /** `white_space_fix` keeps the words of its input. */
  lemma WhiteSpaceFixWords(s: string)
    ensures Split(WhiteSpaceFix(s)) == Split(s)
  {
    SplitChars(s, AnyChar);
    SplitJoin(Split(s));
  }

  /** `remove_articles` leaves no article at a word boundary. */
  lemma RemoveArticlesLeavesNone(s: string)
    ensures NoArticle(RemoveArticles(s), false)
  {
    ScanLeavesNoArticle(s, false);
  }

  /** `white_space_fix` followed by `split()` is just `split()`: the tokens of
      an answer are the white-space runs left after removing articles. */
  lemma GetTokensIsSplit(s: string)
    ensures GetTokens(s) == Split(RemoveArticles(RemovePunc(LowerStr(s))))
  {
    if s != [] {
      var r := RemoveArticles(RemovePunc(LowerStr(s)));
      SplitChars(r, AnyChar);
      SplitJoin(Split(r));
    }
  }

  /** Every token is non-empty and holds no white space, no upper-case letter
      and no punctuation character, and no token is an article. */
  lemma TokensWellFormed(s: string)
    ensures forall t :: t in GetTokens(s) ==>
              IsToken(t) && AllChars(t, NotUpper) && AllChars(t, NotPunct) && !IsArticle(t)
  {
    var p := RemovePunc(LowerStr(s));
    GetTokensIsSplit(s);
    LowerStrChars(s);
    RemovePuncChars(LowerStr(s), NotUpper);
    RemoveArticlesChars(p, false, NotUpper);
    RemoveArticlesChars(p, false, NotPunct);
    SplitChars(RemoveArticles(p), NotUpper);
    SplitChars(RemoveArticles(p), NotPunct);
    RemoveArticlesLeavesNone(p);
    SplitNoArticle(RemoveArticles(p));
    forall t | t in GetTokens(s)
      ensures !IsArticle(t)
    {
      NotArticleWhenClean(t);
    }
  }

  /** On ordinary text, what is left after lower-casing and removing
      punctuation is lower-case letters, digits and white space. */
  lemma LowerNoPunctChars(s: string)
    requires AllChars(s, IsTextChar)
    ensures AllChars(RemovePunc(LowerStr(s)), IsNormalOrSpace)
  {
    var l := LowerStr(s);
    LowerStrChars(s);
    RemovePuncChars(l, NotUpper);
    RemovePuncChars(l, IsTextChar);
  }

  /** On ordinary text, normalisation is: lower-case, delete punctuation,
      split on white space, drop the words "a", "an" and "the". */
  lemma TokensAreFilteredWords(s: string)
    requires AllChars(s, IsTextChar)
    ensures GetTokens(s) == FilterArticles(Split(RemovePunc(LowerStr(s))))
    ensures forall t :: t in GetTokens(s) ==> !IsArticle(t)
  {
    var p := RemovePunc(LowerStr(s));
    GetTokensIsSplit(s);
    LowerNoPunctChars(s);
    RemoveArticlesSplit(p);
  }

  lemma LowerStrId(s: string)
    requires AllChars(s, NotUpper)
    ensures LowerStr(s) == s
  {
  }

  lemma {:induction false} RemovePuncId(s: string)
    requires AllChars(s, NotPunct)
    ensures RemovePunc(s) == s
  {
    if s != [] {
      RemovePuncId(s[1..]);
    }
  }

  lemma {:induction false} FilterArticlesId(toks: seq<string>)
    requires forall t :: t in toks ==> !IsArticle(t)
    ensures FilterArticles(toks) == toks
  {
    if toks != [] {
      assert toks[0] in toks;
      assert forall t :: t in toks[1..] ==> t in toks;
      FilterArticlesId(toks[1..]);
    }
  }

  /** `normalize_answer` is idempotent: its output has no upper case, no
      punctuation and no article left, and single spaces between tokens. */
  lemma NormalizeIdempotent(s: string)
    ensures NormalizeAnswer(NormalizeAnswer(s)) == NormalizeAnswer(s)
  {
    var p := RemovePunc(LowerStr(s));
    var r := RemoveArticles(p);
    var toks := Split(r);
    var n := Join(toks);
    assert n == NormalizeAnswer(s);
    LowerStrChars(s);
    RemovePuncChars(LowerStr(s), NotUpper);
    RemoveArticlesChars(p, false, NotUpper);
    RemoveArticlesChars(p, false, NotPunct);
    SplitChars(r, NotUpper);
    SplitChars(r, NotPunct);
    JoinChars(toks, NotUpper);
    JoinChars(toks, NotPunct);
    LowerStrId(n);
    RemovePuncId(n);
    RemoveArticlesLeavesNone(p);
    SplitNoArticle(r);
    JoinNoArticle(toks);
    NoArticleId(n, false);
    SplitJoin(toks);
  }

  // ---------------------------------------------------------------------------
  // Properties of normalize_text, and worked examples
  // ---------------------------------------------------------------------------

  /** `normalize_text` leaves no apostrophe, and keeps every other character
      of the stripped text. */
  lemma NormalizeTextNoApostrophe(s: string)
    ensures forall c :: c in NormalizeText(s) <==> c in Strip(s) && c != '\''
  {
  }

  /** `normalize_text` is not idempotent: the apostrophe is removed after the
      strip, so a space it guarded survives one pass but not the next. */
  lemma StripKeeps(s: string)
    requires s != [] && !IsSpace(s[0]) && !IsSpace(s[|s| - 1])
    ensures Strip(s) == s
  {
    assert StripLeft(s) == s;
  }

  lemma {:induction false} RemoveCharAbsent(s: string, c: char)
    requires c !in s
    ensures RemoveChar(s, c) == s
  {
    if s != [] {
      RemoveCharAbsent(s[1..], c);
    }
  }

  /** The first application deletes the apostrophe and keeps the space. */
  lemma NormalizeQuoteSpace(s: string)
    requires s == "' x"
    ensures NormalizeText(s) == s[1..]
  {
    assert s[0] == '\'' && s[2] == 'x';
    StripKeeps(s);
    assert '\'' !in s[1..];
    RemoveCharAbsent(s[1..], '\'');
  }

  /** The second application strips the space the first one uncovered. */
  lemma NormalizeSpaceX(t: string)
    requires t == " x"
    ensures NormalizeText(t) == t[1..]
  {
    assert t[0] == ' ' && t[1..] == "x";
    assert StripLeft(t) == StripLeft(t[1..]);
    StripKeeps(t[1..]);
    RemoveCharAbsent(t[1..], '\'');
  }

  lemma NormalizeTextNotIdempotent(s: string)
    requires s == "' x"
    ensures NormalizeText(s) == " x"
    ensures NormalizeText(NormalizeText(s)) == "x"
  {
    NormalizeQuoteSpace(s);
    assert s[1..] == " x";
    NormalizeSpaceX(s[1..]);
    assert s[1..][1..] == "x";
  }





  lemma ControlScan(s: string)
    requires s == "x\U{1}the"
    ensures RemoveArticles(s) == "x\U{1} "
  {
    assert s[1..][1..] == "the";
    assert !ArticleAt(s) by {
      assert s[..1] == "x" && s[..2] != "an" && s[..3] != "the";
    }
    assert RemoveArticlesFrom("the", false) == " ";
    assert RemoveArticlesFrom(s[1..], true) == "\U{1} ";
  }

  lemma ControlSplit(s: string, r: string)
    requires s == "x\U{1}the" && r == "x\U{1} "
    ensures Split(s) == [s]
    ensures Split(r) == [r[..2]]
  {
    WordEndAt(s, |s|);
    assert s[..|s|] == s && s[|s|..] == [];
    WordEndAt(r, 2);
    assert r[2..] == " ";
    assert Split(" ") == [];
  }

  /** Outside ordinary text the characterisation fails: a control character
      is neither a word character nor white space, so the article pattern
      sees a word boundary where `str.split()` sees none. */
  lemma ControlCharacterBoundary(s: string)
    requires s == "x\U{1}the"
    ensures !AllChars(s, IsTextChar)
    ensures GetTokens(s) == ["x\U{1}"]
    ensures FilterArticles(Split(RemovePunc(LowerStr(s)))) == [s]
  {
    assert !IsTextChar(s[1]);
    assert LowerStr(s) == s;
    RemovePuncId(s);
    ControlScan(s);
    ControlSplit(s, "x\U{1} ");
    assert "x\U{1} "[..2] == "x\U{1}";
    GetTokensIsSplit(s);
    assert FilterArticles([s]) == [s] + FilterArticles([]);
  }

  lemma ExampleSentence(s: string, toks: seq<string>)
    requires s == "The cat" && toks == ["the", "cat"]
    ensures AllChars(s, IsTextChar)
    ensures LowerStr(s) == Join(toks)
    ensures forall t :: t in toks ==> IsToken(t) && AllChars(t, NotPunct)
    ensures FilterArticles(toks) == ["cat"]
  {
    assert toks[1..] == ["cat"];
    assert FilterArticles(toks) == FilterArticles(toks[1..]);
    assert FilterArticles(toks[1..]) == ["cat"] + FilterArticles(toks[1..][1..]);
  }

  /** Articles go only as whole words: the word "The" goes, the "a" inside
      "cat" stays. */
  lemma ArticlesOnlyAsWholeWords(s: string)
    requires s == "The cat"
    ensures GetTokens(s) == ["cat"]
  {
    var toks := ["the", "cat"];
    ExampleSentence(s, toks);
    JoinChars(toks, NotPunct);
    RemovePuncId(Join(toks));
    SplitJoin(toks);
    TokensAreFilteredWords(s);
  }

  lemma ExampleRepeat(s: string, toks: seq<string>)
    requires s == "cat cat" && toks == ["cat", "cat"]
    ensures Join(toks) == s && Join(toks[1..]) == s[..3]
    ensures forall t :: t in toks ==> IsToken(t) && AllChars(t, NotUpper) && AllChars(t, NotPunct)
    ensures forall t :: t in toks ==> !IsArticle(t)
    ensures AllChars(s, IsTextChar)
  {
    assert toks[1..] == ["cat"];
  }

  /** Repeated words stay repeated. */
  lemma RepeatedWordTokens(s: string)
    requires s == "cat cat"
    ensures GetTokens(s) == ["cat", "cat"]
    ensures GetTokens(s[..3]) == ["cat"]
  {
    var toks := ["cat", "cat"];
    ExampleRepeat(s, toks);
    JoinChars(toks, NotUpper);
    JoinChars(toks, NotPunct);
    JoinChars(toks[1..], NotUpper);
    JoinChars(toks[1..], NotPunct);
    LowerStrId(s);
    RemovePuncId(s);
    SplitJoin(toks);
    TokensAreFilteredWords(s);
    LowerStrId(s[..3]);
    RemovePuncId(s[..3]);
    SplitJoin(toks[1..]);
    TokensAreFilteredWords(s[..3]);
    FilterArticlesId(toks);
    FilterArticlesId(toks[1..]);
  }
}
