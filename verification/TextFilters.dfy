/** The string helpers of the site scrapers (websites/WebsiteBase.py): stop
    word removal, the "bad entity" test, the punctuation and contraction
    rewrites applied to scraped text, and the guard of the fuzzy similarity
    test. Characters are restricted to ASCII where the source relies on
    Unicode character classes. */
module TextFilters {
  import opened Seqs

  // ---- characters ----

  /** The ASCII characters `str.split()`, `str.strip()` and the regular
      expression class `\s` treat as whitespace. */
  predicate IsSpace(c: char) {
    c == ' ' || c == '\t' || c == '\n' || c == '\r' || c == '\U{000B}' || c == '\U{000C}'
    || ('\U{001C}' <= c <= '\U{001F}')
  }

  /** The ASCII digits matched by `\d`. */
  predicate IsDigit(c: char) {
    '0' <= c <= '9'
  }

  function LowerChar(c: char): char {
    if 'A' <= c <= 'Z' then (c as int + 32) as char else c
  }

  /** `str.lower()` on ASCII letters. */
  function Lower(s: string): (r: string)
    ensures |r| == |s|
  {
    seq(|s|, i requires 0 <= i < |s| => LowerChar(s[i]))
  }

  // ---- words ----

  /** A maximal run of non-whitespace characters, as `str.split()` yields. */
  predicate IsWord(w: string) {
    w != [] && forall i :: 0 <= i < |w| ==> !IsSpace(w[i])
  }

  /** The length of the run of non-whitespace characters `s` starts with. */
  function WordLen(s: string): (n: nat)
    ensures n <= |s|
    ensures forall i :: 0 <= i < n ==> !IsSpace(s[i])
    ensures n < |s| ==> IsSpace(s[n])
  {
    if s == [] || IsSpace(s[0]) then 0
    else
      var n := 1 + WordLen(s[1..]);
      assert forall i :: 1 <= i < |s| ==> s[i] == s[1..][i - 1];
      n
  }

  /** `str.split()` with no separator: the words, in order. */
  function Words(s: string): (ws: seq<string>)
    ensures forall w :: w in ws ==> IsWord(w)
    decreases |s|
  {
    if s == [] then []
    else if IsSpace(s[0]) then Words(s[1..])
    else
      var n := WordLen(s);
      [s[..n]] + Words(s[n..])
  }

  predicate NotSpace(c: char) {
    !IsSpace(c)
  }

  /** The words of a list laid end to end, with nothing between them. */
  function Concat(ws: seq<string>): string {
    if ws == [] then "" else ws[0] + Concat(ws[1..])
  }

  /** `str.split()` loses nothing but whitespace: its words, laid end to
      end, are the non-whitespace characters of the input, in order. */
  lemma {:induction false} WordsCover(s: string)
    ensures Concat(Words(s)) == Select(s, NotSpace)
    decreases |s|
  {
    if s != [] {
      if IsSpace(s[0]) {
        WordsCover(s[1..]);
      } else {
        var n := WordLen(s);
        assert s == s[..n] + s[n..];
        SelectAppend(s[..n], s[n..], NotSpace);
        SelectKeepsAll(s[..n], NotSpace);
        assert Words(s)[1..] == Words(s[n..]);
        WordsCover(s[n..]);
      }
    }
  }

  /** A filter every element passes keeps the whole sequence. */
  lemma {:induction false} SelectKeepsAll(w: string, p: char -> bool)
    requires forall i :: 0 <= i < |w| ==> p(w[i])
    ensures Select(w, p) == w
  {
    if w != [] {
      SelectKeepsAll(w[1..], p);
    }
  }

  /** `' '.join(ws)` */
  function Join(ws: seq<string>): string {
    if ws == [] then ""
    else if |ws| == 1 then ws[0]
    else ws[0] + " " + Join(ws[1..])
  }

  function TrimStart(s: string): string
    decreases |s|
  {
    if s != [] && IsSpace(s[0]) then TrimStart(s[1..]) else s
  }

  function TrimEnd(s: string): string
    decreases |s|
  {
    if s != [] && IsSpace(s[|s| - 1]) then TrimEnd(s[..|s| - 1]) else s
  }

  /** `str.strip()` with no argument. */
  function Strip(s: string): string {
    TrimStart(TrimEnd(s))
  }

  /** No whitespace at either end, and every whitespace character inside is
      a single blank between two non-blank characters. */
  predicate SingleSpaced(s: string) {
    (s == [] || (!IsSpace(s[0]) && !IsSpace(s[|s| - 1])))
    && forall i :: 0 <= i < |s| && IsSpace(s[i]) ==> s[i] == ' ' && i + 1 < |s| && !IsSpace(s[i + 1])
  }

  /** Splitting a joined list of words gives the list back. */
  lemma {:induction false} WordsJoin(ws: seq<string>)
    requires forall w :: w in ws ==> IsWord(w)
    ensures Words(Join(ws)) == ws
  {
    if ws != [] {
      var w := ws[0];
      assert IsWord(w);
      if |ws| == 1 {
        WordThenRest(w, []);
        assert w + [] == w;
      } else {
        var rest := Join(ws[1..]);
        assert w + " " + rest == w + (" " + rest);
        WordThenRest(w, " " + rest);
        assert (" " + rest)[1..] == rest;
        assert forall x :: x in ws[1..] ==> x in ws;
        WordsJoin(ws[1..]);
      }
    }
  }

  /** A word followed by nothing or by whitespace is split off whole. */
  lemma WordThenRest(w: string, r: string)
    requires IsWord(w)
    requires r == [] || IsSpace(r[0])
    ensures Words(w + r) == [w] + Words(r)
  {
    var s := w + r;
    assert s[|w|..] == r;
    assert WordLen(s) == |w| by {
      assert |w| < |s| ==> IsSpace(s[|w|]);
    }
    assert s[..|w|] == w;
  }

  /** A joined list of words is single-spaced. */
  lemma {:induction false} JoinSingleSpaced(ws: seq<string>)
    requires forall w :: w in ws ==> IsWord(w)
    ensures SingleSpaced(Join(ws))
    ensures ws != [] ==> Join(ws) != []
  {
    if |ws| > 1 {
      var w := ws[0];
      assert IsWord(w);
      assert forall x :: x in ws[1..] ==> x in ws;
      JoinSingleSpaced(ws[1..]);
      var rest := Join(ws[1..]);
      var s := w + " " + rest;
      forall i | 0 <= i < |s| && IsSpace(s[i])
        ensures s[i] == ' ' && i + 1 < |s| && !IsSpace(s[i + 1])
      {
        if i > |w| {
          assert s[i] == rest[i - |w| - 1];
          if i + 1 < |s| {
            assert s[i + 1] == rest[i - |w|];
          }
        } else {
          assert s[i + 1] == rest[0];
        }
      }
      assert s[0] == w[0];
      assert s[|s| - 1] == rest[|rest| - 1];
    } else if |ws| == 1 {
      assert IsWord(ws[0]);
    }
  }

  /** Stripping a string with no whitespace at either end changes nothing. */
  lemma StripNoEdgeSpace(s: string)
    requires s == [] || (!IsSpace(s[0]) && !IsSpace(s[|s| - 1]))
    ensures Strip(s) == s
  {
  }

  // ---- _RemoveStopWords ----

  const StopWords: seq<string> := ["the", "a", "mr", "mrs", "ms"]

  /** The words that survive: those whose lower case is not a stop word. */
  function Keep(ws: seq<string>): (r: seq<string>)
    ensures forall w :: w in r <==> w in ws && Lower(w) !in StopWords
  {
    Select(ws, (w: string) => Lower(w) !in StopWords)
  }

  /** _RemoveStopWords: the input's words in their order minus the stop
      words, separated by single blanks, with nothing around them. */
  function RemoveStopWords(s: string): (r: string)
    ensures Words(r) == Keep(Words(s))
    ensures SingleSpaced(r)
  {
    var kept := Keep(Words(s));
    var joined := Join(kept);
    WordsJoin(kept);
    JoinSingleSpaced(kept);
    StripNoEdgeSpace(joined);
    Strip(joined)
  }

  // ---- _IsBadEntity ----

  /** `re.match(r"\d+\S", s)`: some run of leading digits is followed by a
      non-whitespace character. */
  predicate DigitsThenNonSpace(s: string) {
    exists k :: 1 <= k < |s| && (forall j :: 0 <= j < k ==> IsDigit(s[j])) && !IsSpace(s[k])
  }

  /** The two-digit hours `0[0-9]`, `1[0-9]` and `2[0-3]`. */
  predicate IsTwoDigitHour(c0: char, c1: char) {
    ((c0 == '0' || c0 == '1') && IsDigit(c1)) || (c0 == '2' && '0' <= c1 <= '3')
  }

  /** After an hour of `h` characters: `:[0-5][0-9]$`, where `$` also
      matches just before a final newline. */
  predicate MinutesFrom(s: string, h: nat) {
    h + 3 <= |s| && s[h] == ':' && '0' <= s[h + 1] <= '5' && IsDigit(s[h + 2])
    && (h + 3 == |s| || (h + 4 == |s| && s[h + 3] == '\n'))
  }

  /** `re.match(r"^([0-9]|0[0-9]|1[0-9]|2[0-3]):[0-5][0-9]$", s)` */
  predicate IsClock(s: string) {
    (|s| >= 1 && IsDigit(s[0]) && MinutesFrom(s, 1))
    || (|s| >= 2 && IsTwoDigitHour(s[0], s[1]) && MinutesFrom(s, 2))
  }

  /** _IsBadEntity */
  predicate IsBadEntity(s: string) {
    DigitsThenNonSpace(s) || IsClock(s)
  }

  /** A bad entity is exactly a string of two or more characters that
      starts with a digit followed by a non-whitespace character; the clock
      pattern adds nothing. */
  lemma IsBadEntityExactly(s: string)
    ensures IsBadEntity(s) <==> |s| >= 2 && IsDigit(s[0]) && !IsSpace(s[1])
  {
    if |s| >= 2 && IsDigit(s[0]) && !IsSpace(s[1]) {
      assert forall j :: 0 <= j < 1 ==> IsDigit(s[j]);
      assert DigitsThenNonSpace(s);
    }
    if DigitsThenNonSpace(s) {
      DigitsThenNonSpaceStart(s);
    }
    if IsClock(s) {
      ClockStart(s);
    }
  }

  lemma DigitsThenNonSpaceStart(s: string)
    requires DigitsThenNonSpace(s)
    ensures |s| >= 2 && IsDigit(s[0]) && !IsSpace(s[1])
  {
    var k :| 1 <= k < |s| && (forall j :: 0 <= j < k ==> IsDigit(s[j])) && !IsSpace(s[k]);
    if k > 1 {
      assert IsDigit(s[1]);
    }
  }

  /** A clock time starts with a digit followed by a digit or a colon. */
  lemma ClockStart(s: string)
    requires IsClock(s)
    ensures |s| >= 2 && IsDigit(s[0]) && (IsDigit(s[1]) || s[1] == ':')
  {
  }

  // ---- _FixText ----

  /** Leftmost, non-overlapping replacement of every `n`-character window
      that `hit` accepts by `rep`, scanning left to right (what `re.sub`
      and `str.replace` do for a fixed-width pattern). */
  function Rewrite(s: string, n: nat, hit: string -> bool, rep: string): string
    requires n >= 1
    decreases |s|
  {
    if |s| < n then s
    else if hit(s[..n]) then rep + Rewrite(s[n..], n, hit, rep)
    else [s[0]] + Rewrite(s[1..], n, hit, rep)
  }

  /** Replacement of a literal pattern. */
  function Replace(s: string, pat: string, rep: string): string
    requires pat != []
  {
    Rewrite(s, |pat|, (w: string) => w == pat, rep)
  }

  /** `re.sub("i'm", "i am", s, flags=re.IGNORECASE)` on ASCII letters. */
  function ReplaceIAm(s: string): string {
    Rewrite(s, 3, (w: string) => Lower(w) == "i'm", "i am")
  }

  /** The typographic characters the first five rewrites turn into plain
      punctuation: right single quote, backtick, left double quote,
      full-width question mark, ellipsis. */
  const OddChars: seq<char> := ['\U{2019}', '`', '\U{201C}', '\U{FF1F}', '\U{2026}']

  /** websites/WebsiteBase.py:413-417: typographic punctuation to plain punctuation. */
  function PlainPunctuation(s: string): string {
    var t1 := Replace(s, ['\U{2019}'], "'");
    var t2 := Replace(t1, "`", "'");
    var t3 := Replace(t2, ['\U{201C}'], "\"");
    var t4 := Replace(t3, ['\U{FF1F}'], "?");
    Replace(t4, ['\U{2026}'], " ")
  }

  /** websites/WebsiteBase.py:421-428: contractions spelled out. */
  function ExpandContractions(s: string): string {
    var t1 := Replace(s, "'s", " ");
    var t2 := Replace(t1, "'ve", " have ");
    var t3 := Replace(t2, "can't", "can not");
    var t4 := Replace(t3, "n't", " not ");
    var t5 := ReplaceIAm(t4);
    var t6 := Replace(t5, "'re", " are ");
    var t7 := Replace(t6, "'d", " would ");
    Replace(t7, "'ll", " will ")
  }

  /** websites/WebsiteBase.py:431-435: a blank after sentence punctuation. */
  function SentenceSpacing(s: string): string {
    var t1 := Replace(s, ".\"", ". \"");
    var t2 := Replace(t1, "?", "? ");
    var t3 := Replace(t2, "\".", "\". ");
    Replace(t3, "!", "! ")
  }

  /** _FixText */
  function FixText(s: string): string {
    SentenceSpacing(ExpandContractions(PlainPunctuation(s)))
  }

  /** Every `c` in `s` is immediately followed by a blank. */
  predicate FollowedBySpace(s: string, c: char) {
    forall i :: 0 <= i < |s| && s[i] == c ==> i + 1 < |s| && s[i + 1] == ' '
  }

  /** A rewrite writes only characters of its input or of its replacement. */
  lemma {:induction false} RewriteKeepsAbsent(s: string, n: nat, hit: string -> bool, rep: string, c: char)
    requires n >= 1 && c !in s && c !in rep
    ensures c !in Rewrite(s, n, hit, rep)
    decreases |s|
  {
    if |s| >= n {
      if hit(s[..n]) {
        assert forall x :: x in s[n..] ==> x in s;
        RewriteKeepsAbsent(s[n..], n, hit, rep, c);
      } else {
        assert forall x :: x in s[1..] ==> x in s;
        RewriteKeepsAbsent(s[1..], n, hit, rep, c);
      }
    }
  }

  /** Replacing a single character by a string without it removes it. */
  lemma {:induction false} ReplaceRemoves(s: string, c: char, rep: string)
    requires c !in rep
    ensures c !in Replace(s, [c], rep)
    decreases |s|
  {
    if |s| >= 1 {
      if s[..1] != [c] {
        assert s[0] != c;
      }
      ReplaceRemoves(s[1..], c, rep);
    }
  }

  /** Replacing a mark by the mark and a blank leaves every mark followed
      by a blank. */
  lemma {:induction false} ReplaceMarkAddsSpace(s: string, c: char)
    requires c != ' '
    ensures FollowedBySpace(Replace(s, [c], [c, ' ']), c)
    decreases |s|
  {
    if |s| >= 1 {
      ReplaceMarkAddsSpace(s[1..], c);
      if s[..1] != [c] {
        assert s[0] != c;
      }
    }
  }

  lemma FollowedBySpaceConcat(a: string, b: string, c: char)
    requires FollowedBySpace(a, c) && FollowedBySpace(b, c)
    ensures FollowedBySpace(a + b, c)
  {
    var s := a + b;
    forall i | 0 <= i < |s| && s[i] == c
      ensures i + 1 < |s| && s[i + 1] == ' '
    {
      if i < |a| {
        assert a[i] == c;
      } else {
        assert b[i - |a|] == c;
      }
    }
  }

  /** A rewrite whose windows neither contain `c` nor start with a blank,
      and whose replacement keeps `c` followed by a blank, keeps `c`
      followed by a blank. */
  lemma {:induction false} RewriteKeepsSpacing(s: string, n: nat, hit: string -> bool, rep: string, c: char)
    requires n >= 1
    requires FollowedBySpace(s, c) && FollowedBySpace(rep, c)
    requires forall w :: |w| == n && hit(w) ==> c !in w && w[0] != ' '
    ensures FollowedBySpace(Rewrite(s, n, hit, rep), c)
    decreases |s|
  {
    if |s| >= n {
      if hit(s[..n]) {
        assert s[..n][n - 1] == s[n - 1];
        assert forall i :: 0 <= i < |s[n..]| ==> s[n..][i] == s[n + i];
        RewriteKeepsSpacing(s[n..], n, hit, rep, c);
        FollowedBySpaceConcat(rep, Rewrite(s[n..], n, hit, rep), c);
      } else {
        var t := s[1..];
        assert forall i :: 0 <= i < |t| ==> t[i] == s[i + 1];
        RewriteKeepsSpacing(t, n, hit, rep, c);
        var rt := Rewrite(t, n, hit, rep);
        if s[0] == c {
          assert t[0] == ' ';
          if |t| >= n {
            assert t[..n][0] == ' ';
          }
          assert rt[0] == ' ';
        }
        assert ([s[0]] + rt)[1..] == rt;
      }
    }
  }

  /** `_FixText` leaves none of the typographic characters it normalises. */
  lemma FixTextNoOddChars(s: string)
    ensures forall c :: c in OddChars ==> c !in FixText(s)
  {
    var t1 := Replace(s, ['\U{2019}'], "'");
    var t2 := Replace(t1, "`", "'");
    var t3 := Replace(t2, ['\U{201C}'], "\"");
    var t4 := Replace(t3, ['\U{FF1F}'], "?");
    var t5 := Replace(t4, ['\U{2026}'], " ");
    forall c | c in OddChars
      ensures c !in FixText(s)
    {
      if c == '\U{2019}' {
        ReplaceRemoves(s, c, "'");
        KeepsAbsentFrom(t1, 2, c);
      } else if c == '`' {
        ReplaceRemoves(t1, c, "'");
        KeepsAbsentFrom(t2, 3, c);
      } else if c == '\U{201C}' {
        ReplaceRemoves(t2, c, "\"");
        KeepsAbsentFrom(t3, 4, c);
      } else if c == '\U{FF1F}' {
        ReplaceRemoves(t3, c, "?");
        KeepsAbsentFrom(t4, 5, c);
      } else {
        ReplaceRemoves(t4, c, " ");
        KeepsAbsentFrom(t5, 6, c);
      }
    }
  }

  /** A typographic character absent after rewrite `k - 1` stays absent to
      the end of `_FixText`; `t` is the text after rewrite `k - 1`. */
  lemma KeepsAbsentFrom(t: string, k: nat, c: char)
    requires 2 <= k <= 6 && c in OddChars && c !in t
    ensures k == 2 ==> c !in SentenceSpacing(ExpandContractions(
              Replace(Replace(Replace(Replace(t, "`", "'"), ['\U{201C}'], "\""), ['\U{FF1F}'], "?"), ['\U{2026}'], " ")))
    ensures k == 3 ==> c !in SentenceSpacing(ExpandContractions(
              Replace(Replace(Replace(t, ['\U{201C}'], "\""), ['\U{FF1F}'], "?"), ['\U{2026}'], " ")))
    ensures k == 4 ==> c !in SentenceSpacing(ExpandContractions(Replace(Replace(t, ['\U{FF1F}'], "?"), ['\U{2026}'], " ")))
    ensures k == 5 ==> c !in SentenceSpacing(ExpandContractions(Replace(t, ['\U{2026}'], " ")))
    ensures k == 6 ==> c !in SentenceSpacing(ExpandContractions(t))
  {
    var u := t;
    if k <= 2 {
      RewriteKeepsAbsent(u, 1, (w: string) => w == "`", "'", c);
      u := Replace(u, "`", "'");
    }
    if k <= 3 {
      RewriteKeepsAbsent(u, 1, (w: string) => w == ['\U{201C}'], "\"", c);
      u := Replace(u, ['\U{201C}'], "\"");
    }
    if k <= 4 {
      RewriteKeepsAbsent(u, 1, (w: string) => w == ['\U{FF1F}'], "?", c);
      u := Replace(u, ['\U{FF1F}'], "?");
    }
    if k <= 5 {
      RewriteKeepsAbsent(u, 1, (w: string) => w == ['\U{2026}'], " ", c);
      u := Replace(u, ['\U{2026}'], " ");
    }
    NoOddCharsAfterPunctuation(u, c);
  }

  /** The contraction and spacing rewrites introduce no typographic
      character. */
  lemma NoOddCharsAfterPunctuation(t: string, c: char)
    requires c in OddChars && c !in t
    ensures c !in SentenceSpacing(ExpandContractions(t))
  {
    var t1 := Replace(t, "'s", " ");
    RewriteKeepsAbsent(t, 2, (w: string) => w == "'s", " ", c);
    var t2 := Replace(t1, "'ve", " have ");
    RewriteKeepsAbsent(t1, 3, (w: string) => w == "'ve", " have ", c);
    var t3 := Replace(t2, "can't", "can not");
    RewriteKeepsAbsent(t2, 5, (w: string) => w == "can't", "can not", c);
    var t4 := Replace(t3, "n't", " not ");
    RewriteKeepsAbsent(t3, 3, (w: string) => w == "n't", " not ", c);
    var t5 := ReplaceIAm(t4);
    RewriteKeepsAbsent(t4, 3, (w: string) => Lower(w) == "i'm", "i am", c);
    var t6 := Replace(t5, "'re", " are ");
    RewriteKeepsAbsent(t5, 3, (w: string) => w == "'re", " are ", c);
    var t7 := Replace(t6, "'d", " would ");
    RewriteKeepsAbsent(t6, 2, (w: string) => w == "'d", " would ", c);
    var e := Replace(t7, "'ll", " will ");
    RewriteKeepsAbsent(t7, 3, (w: string) => w == "'ll", " will ", c);
    var s1 := Replace(e, ".\"", ". \"");
    RewriteKeepsAbsent(e, 2, (w: string) => w == ".\"", ". \"", c);
    var s2 := Replace(s1, "?", "? ");
    RewriteKeepsAbsent(s1, 1, (w: string) => w == "?", "? ", c);
    var s3 := Replace(s2, "\".", "\". ");
    RewriteKeepsAbsent(s2, 2, (w: string) => w == "\".", "\". ", c);
    RewriteKeepsAbsent(s3, 1, (w: string) => w == "!", "! ", c);
  }

  /** In `_FixText` output every question mark and every exclamation mark
      is immediately followed by a blank. */
  lemma FixTextSpacesAfterMarks(s: string)
    ensures FollowedBySpace(FixText(s), '?')
    ensures FollowedBySpace(FixText(s), '!')
  {
    var e := ExpandContractions(PlainPunctuation(s));
    var s1 := Replace(e, ".\"", ". \"");
    var s2 := Replace(s1, "?", "? ");
    ReplaceMarkAddsSpace(s1, '?');
    var s3 := Replace(s2, "\".", "\". ");
    RewriteKeepsSpacing(s2, 2, (w: string) => w == "\".", "\". ", '?');
    RewriteKeepsSpacing(s3, 1, (w: string) => w == "!", "! ", '?');
    ReplaceMarkAddsSpace(s3, '!');
  }

  // ---- _CheckSimilarity ----

  /** _CheckSimilarity: False when either text is empty (the scorer is not
      consulted); otherwise whether the partial-ratio score reaches the
      configured ratio. */
  predicate CheckSimilarity(a: string, b: string, score: (string, string) -> int, ratio: int) {
    if a == "" || b == "" then false else score(a, b) >= ratio
  }

  /** The empty-string guard, for every scorer and ratio. */
  lemma CheckSimilarityGuard(a: string, b: string, score: (string, string) -> int, ratio: int)
    ensures (a == "" || b == "") ==> !CheckSimilarity(a, b, score, ratio)
    ensures (a != "" && b != "") ==> (CheckSimilarity(a, b, score, ratio) <==> score(a, b) >= ratio)
  {
  }
}
