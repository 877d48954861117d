/** The option-name fallback of a default rule's evidence line: the first
    run of the characters `[a-zA-Z_]` in the template, as the program reads
    it with `re.findall(r'[a-zA-Z_]+', template)[0]` (sve/sve.py), and the
    reading that skips escape sequences such as `\w`. */
module Words {
  import opened Results

  /** A character of the class `[a-zA-Z_]`. */
  predicate IsWordChar(c: char)
  {
    'a' <= c <= 'z' || 'A' <= c <= 'Z' || c == '_'
  }

  /** `w` is the first maximal run of word characters of `s`, and it starts
      at `i`. */
  predicate FirstRunAt(s: string, i: int, w: string)
  {
    && 0 <= i && i + |w| <= |s| && |w| > 0
    && s[i..i + |w|] == w
    && (forall j :: 0 <= j < i ==> !IsWordChar(s[j]))
    && (forall j :: i <= j < i + |w| ==> IsWordChar(s[j]))
    && (i + |w| == |s| || !IsWordChar(s[i + |w|]))
  }

  /** The word characters at the front of `s`. */
  function WordRun(s: string): (w: string)
    ensures |w| <= |s| && s[..|w|] == w
    ensures forall j :: 0 <= j < |w| ==> IsWordChar(s[j])
    ensures |w| == |s| || !IsWordChar(s[|w|])
  {
    if s != [] && IsWordChar(s[0]) then [s[0]] + WordRun(s[1..]) else []
  }

  /** `re.findall(r'[a-zA-Z_]+', s)[0]`, with `None` for the `IndexError`
      when `s` has no word character. */
  function FirstWord(s: string): Option<string>
  {
    if s == [] then None
    else if IsWordChar(s[0]) then Some(WordRun(s))
    else FirstWord(s[1..])
  }

  /** The first word is missing exactly when no character is a word
      character, and otherwise it is the first maximal run of them. */
  lemma {:induction false} FirstWordFinds(s: string)
    ensures FirstWord(s).None? <==> forall j :: 0 <= j < |s| ==> !IsWordChar(s[j])
    ensures FirstWord(s).Some? ==> exists i :: FirstRunAt(s, i, FirstWord(s).value)
  {
    if s != [] {
      if IsWordChar(s[0]) {
        assert FirstRunAt(s, 0, WordRun(s));
      } else {
        var r := FirstWord(s[1..]);
        FirstWordFinds(s[1..]);
        if r.Some? {
          var i :| FirstRunAt(s[1..], i, r.value);
          assert s[i + 1..i + 1 + |r.value|] == s[1..][i..i + |r.value|];
          assert FirstRunAt(s, i + 1, r.value);
        } else {
          assert forall j :: 1 <= j < |s| ==> s[j] == s[1..][j - 1];
        }
      }
    }
  }

  /** `p` is a prefix of `s`. */
  predicate StartsWith(s: string, p: string)
  {
    |p| <= |s| && s[..|p|] == p
  }

  /** The first word after a stretch with no word character is the first
      word of what follows it. */
  lemma {:induction false} FirstWordSkip(p: string, q: string)
    requires forall j :: 0 <= j < |p| ==> !IsWordChar(p[j])
    ensures FirstWord(p + q) == FirstWord(q)
  {
    if p == [] {
      assert p + q == q;
    } else {
      assert (p + q)[1..] == p[1..] + q;
      FirstWordSkip(p[1..], q);
    }
  }

  lemma {:induction false} WordRunOf(w: string, q: string)
    requires forall j :: 0 <= j < |w| ==> IsWordChar(w[j])
    requires q == [] || !IsWordChar(q[0])
    ensures WordRun(w + q) == w
  {
    if w == [] {
      assert w + q == q;
    } else {
      assert (w + q)[1..] == w[1..] + q;
      WordRunOf(w[1..], q);
    }
  }

  /** A string that starts with a maximal word starts with its first word. */
  lemma FirstWordAt(w: string, q: string)
    requires |w| > 0 && forall j :: 0 <= j < |w| ==> IsWordChar(w[j])
    requires q == [] || !IsWordChar(q[0])
    ensures FirstWord(w + q) == Some(w)
  {
    WordRunOf(w, q);
  }

  /** The pattern text with every escape sequence (a backslash and the
      character after it) removed, so that the `w` of `\w` is not taken for
      the start of an option name. */
  function StripEscapes(s: string): (r: string)
    ensures |r| <= |s|
  {
    if s == [] then []
    else if s[0] == '\\' then (if |s| == 1 then [] else StripEscapes(s[2..]))
    else [s[0]] + StripEscapes(s[1..])
  }

  /** A stretch without backslashes is kept as it is. */
  lemma {:induction false} StripEscapesPlain(p: string, q: string)
    requires forall j :: 0 <= j < |p| ==> p[j] != '\\'
    ensures StripEscapes(p + q) == p + StripEscapes(q)
  {
    if p == [] {
      assert p + q == q;
    } else {
      assert (p + q)[1..] == p[1..] + q;
      StripEscapesPlain(p[1..], q);
    }
  }

  /** An escape sequence is dropped. */
  lemma StripEscapesEscape(c: char, q: string)
    ensures StripEscapes(['\\', c] + q) == StripEscapes(q)
  {
    assert (['\\', c] + q)[2..] == q;
  }

  /** The first word of `pre + w + q` with escapes removed is `w` when
      `pre` has neither word characters nor backslashes and what is left of
      `q` does not continue the word. */
  lemma StrippedFirstWord(pre: string, w: string, q: string)
    requires forall j :: 0 <= j < |pre| ==> !IsWordChar(pre[j]) && pre[j] != '\\'
    requires |w| > 0 && forall j :: 0 <= j < |w| ==> IsWordChar(w[j])
    requires StripEscapes(q) == [] || !IsWordChar(StripEscapes(q)[0])
    ensures FirstWord(StripEscapes(pre + w + q)) == Some(w)
  {
    StripWordPrefix(pre, w, q);
    FirstWordAfterGap(pre, w, StripEscapes(q));
  }

  lemma StripWordPrefix(pre: string, w: string, q: string)
    requires forall j :: 0 <= j < |pre| ==> pre[j] != '\\'
    requires forall j :: 0 <= j < |w| ==> IsWordChar(w[j])
    ensures StripEscapes(pre + w + q) == (pre + w) + StripEscapes(q)
  {
    NoBackslashBeforeWord(pre, w);
    StripEscapesPlain(pre + w, q);
  }

  lemma FirstWordAfterGap(pre: string, w: string, s: string)
    requires forall j :: 0 <= j < |pre| ==> !IsWordChar(pre[j])
    requires |w| > 0 && forall j :: 0 <= j < |w| ==> IsWordChar(w[j])
    requires s == [] || !IsWordChar(s[0])
    ensures FirstWord((pre + w) + s) == Some(w)
  {
    assert (pre + w) + s == pre + (w + s);
    FirstWordAt(w, s);
    FirstWordSkip(pre, w + s);
  }

  lemma NoBackslashBeforeWord(pre: string, w: string)
    requires forall j :: 0 <= j < |pre| ==> pre[j] != '\\'
    requires forall j :: 0 <= j < |w| ==> IsWordChar(w[j])
    ensures forall j :: 0 <= j < |pre + w| ==> (pre + w)[j] != '\\'
  {
  }

  /** Neither a word character nor a backslash. */
  predicate IsSeparator(c: char)
  {
    !IsWordChar(c) && c != '\\'
  }

  predicate Separators(s: string)
  {
    forall c :: c in s ==> IsSeparator(c)
  }

  predicate IsWord(s: string)
  {
    |s| > 0 && forall c :: c in s ==> IsWordChar(c)
  }

  /** A name that ends at `k` is not continued by the character there, nor,
      when an escape sequence starts there, by the character after it. */
  predicate NameEndsAt(s: string, k: int)
  {
    0 <= k < |s| &&
    (IsSeparator(s[k]) || (k + 2 < |s| && s[k] == '\\' && IsSeparator(s[k + 2])))
  }

  lemma SeparatorChars(s: string)
    requires Separators(s)
    ensures forall j :: 0 <= j < |s| ==> !IsWordChar(s[j]) && s[j] != '\\'
  {
    forall j | 0 <= j < |s| ensures IsSeparator(s[j]) {
      assert s[j] in s;
    }
  }

  lemma NoWordChars(s: string)
    requires forall c :: c in s ==> !IsWordChar(c)
    ensures forall j :: 0 <= j < |s| ==> !IsWordChar(s[j])
  {
    forall j | 0 <= j < |s| ensures !IsWordChar(s[j]) {
      assert s[j] in s;
    }
  }

  lemma WordChars(s: string)
    requires IsWord(s)
    ensures |s| > 0 && forall j :: 0 <= j < |s| ==> IsWordChar(s[j])
  {
    forall j | 0 <= j < |s| ensures IsWordChar(s[j]) {
      assert s[j] in s;
    }
  }

  /** What is left of a string where a name ends does not continue it. */
  lemma StrippedNameEnd(q: string)
    requires NameEndsAt(q, 0)
    ensures StripEscapes(q) != [] && !IsWordChar(StripEscapes(q)[0])
  {
    if q[0] == '\\' {
      assert q == ['\\', q[1]] + q[2..];
      StripEscapesEscape(q[1], q[2..]);
      assert q[2..][0] == q[2];
    }
  }

  /** `re.findall(r'[a-zA-Z_]+', s)[0]` is the run `s[i..i + n]` when no
      word character comes before it and it is not continued. */
  lemma FirstWordIs(s: string, i: nat, n: nat)
    requires i + n < |s| && IsWord(s[i..i + n]) && !IsWordChar(s[i + n])
    requires forall c :: c in s[..i] ==> !IsWordChar(c)
    ensures FirstWord(s) == Some(s[i..i + n])
  {
    var pre, w, q := s[..i], s[i..i + n], s[i + n..];
    assert s == (pre + w) + q;
    NoWordChars(pre);
    WordChars(w);
    FirstWordAfterGap(pre, w, q);
  }

  /** The run `s[i..i + n]` is the first word once escape sequences are
      dropped, when only separators come before it and it is not
      continued. */
  lemma StrippedWordIs(s: string, i: nat, n: nat)
    requires i + n < |s| && Separators(s[..i]) && IsWord(s[i..i + n]) && NameEndsAt(s, i + n)
    ensures FirstWord(StripEscapes(s)) == Some(s[i..i + n])
  {
    var pre, w, q := s[..i], s[i..i + n], s[i + n..];
    assert s == pre + w + q;
    SeparatorChars(pre);
    WordChars(w);
    assert NameEndsAt(q, 0) by {
      assert q[0] == s[i + n];
      assert |q| > 2 ==> q[2] == s[i + n + 2];
    }
    StrippedNameEnd(q);
    StrippedFirstWord(pre, w, q);
  }

  /** As `StrippedWordIs`, with one escape sequence at `e` among the
      separators before the run. */
  lemma StrippedWordAfterEscape(s: string, e: nat, i: nat, n: nat)
    requires e + 2 <= i && i + n < |s| && s[e] == '\\'
    requires Separators(s[..e]) && Separators(s[e + 2..i])
    requires IsWord(s[i..i + n]) && NameEndsAt(s, i + n)
    ensures FirstWord(StripEscapes(s)) == Some(s[i..i + n])
  {
    var pre, t := s[..e], s[e + 2..];
    StripEscapeAt(s, e);
    SuffixWordIs(s, e + 2, i, n);
    SeparatorChars(pre);
    FirstWordSkip(pre, StripEscapes(t));
  }

  /** Dropping the escape sequence at `e` when none comes before it. */
  lemma StripEscapeAt(s: string, e: nat)
    requires e + 2 <= |s| && s[e] == '\\' && Separators(s[..e])
    ensures StripEscapes(s) == s[..e] + StripEscapes(s[e + 2..])
  {
    var pre, t := s[..e], s[e + 2..];
    assert s == pre + (['\\', s[e + 1]] + t);
    SeparatorChars(pre);
    StripEscapesPlain(pre, ['\\', s[e + 1]] + t);
    StripEscapesEscape(s[e + 1], t);
  }

  /** `StrippedWordIs` on the suffix from `d`. */
  lemma SuffixWordIs(s: string, d: nat, i: nat, n: nat)
    requires d <= i && i + n < |s| && Separators(s[d..i]) && IsWord(s[i..i + n]) && NameEndsAt(s, i + n)
    ensures FirstWord(StripEscapes(s[d..])) == Some(s[i..i + n])
  {
    var t, k := s[d..], i - d;
    assert t[..k] == s[d..i] && t[k..k + n] == s[i..i + n];
    assert t[k + n] == s[i + n];
    assert k + n + 2 < |t| ==> t[k + n + 2] == s[i + n + 2];
    StrippedWordIs(t, k, n);
  }
}
