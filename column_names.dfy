/**
 * Column-name normalisation (`normalize_colname`): strip surrounding whitespace,
 * lower-case, and collapse every run of internal whitespace to one space, as Python's
 * `" ".join(name.strip().lower().split())` does.
 */
module ColumnNames {

  /** Python's `str.isspace` for one character: the characters `strip()` and `split()` cut on. */
  predicate IsSpace(c: char) {
    || c == ' '
    || '\t' <= c <= '\r'
    || '\U{1C}' <= c <= '\U{1F}'
    || c == '\U{85}' || c == '\U{A0}' || c == '\U{1680}'
    || '\U{2000}' <= c <= '\U{200A}'
    || c == '\U{2028}' || c == '\U{2029}' || c == '\U{202F}' || c == '\U{205F}' || c == '\U{3000}'
  }

  /** Upper-case letters of the Basic Latin and Latin-1 blocks, whose lower case is 32 code points on. */
  predicate IsUpper(c: char) {
    'A' <= c <= 'Z' || ('\U{C0}' <= c <= '\U{DE}' && c != '\U{D7}')
  }

  function ToLower(c: char): (r: char)
    ensures !IsUpper(r)
    ensures IsSpace(r) <==> IsSpace(c)
    ensures !IsUpper(c) ==> r == c
  {
    if IsUpper(c) then (c as int + 32) as char else c
  }

  predicate NoUpper(s: string) {
    forall i :: 0 <= i < |s| ==> !IsUpper(s[i])
  }

  /** `str.lower()` */
  function Lower(s: string): (r: string)
    ensures |r| == |s| && NoUpper(r)
    ensures forall i :: 0 <= i < |s| ==> r[i] == ToLower(s[i])
  {
    seq(|s|, i requires 0 <= i < |s| => ToLower(s[i]))
  }

  function TrimStart(s: string): (r: string)
    ensures r == [] || !IsSpace(r[0])
    ensures |r| <= |s| && r == s[|s| - |r|..]
    ensures forall i :: 0 <= i < |s| - |r| ==> IsSpace(s[i])
  {
    if s != [] && IsSpace(s[0]) then TrimStart(s[1..]) else s
  }

  function TrimEnd(s: string): (r: string)
    ensures r == [] || !IsSpace(r[|r| - 1])
    ensures |r| <= |s| && r == s[..|r|]
    ensures forall i :: |r| <= i < |s| ==> IsSpace(s[i])
  {
    if s != [] && IsSpace(s[|s| - 1]) then TrimEnd(s[..|s| - 1]) else s
  }

  /** `str.strip()` */
  function Strip(s: string): string {
    TrimEnd(TrimStart(s))
  }

  /** A word of `str.split()`: a non-empty run of non-whitespace characters. */
  predicate IsWord(w: string) {
    w != [] && forall i :: 0 <= i < |w| ==> !IsSpace(w[i])
  }

  /** Length of the maximal non-whitespace prefix of `s`. */
  function WordLen(s: string): (n: nat)
    ensures n <= |s|
    ensures forall i :: 0 <= i < n ==> !IsSpace(s[i])
    ensures n < |s| ==> IsSpace(s[n])
    ensures s != [] && !IsSpace(s[0]) ==> n >= 1
  {
    if s == [] || IsSpace(s[0]) then 0 else 1 + WordLen(s[1..])
  }

  /** `str.split()` with no separator: the maximal runs of non-whitespace, in order, none empty. */
  function Words(s: string): seq<string>
    decreases |s|
  {
    if s == [] then []
    else if IsSpace(s[0]) then Words(s[1..])
    else
      var n := WordLen(s);
      [s[..n]] + Words(s[n..])
  }

  /** Every piece `split()` yields is a word, and it has no upper-case letter when the input has none. */
  lemma {:induction false} WordsAreWords(s: string)
    ensures forall i :: 0 <= i < |Words(s)| ==> IsWord(Words(s)[i])
    ensures NoUpper(s) ==> forall i :: 0 <= i < |Words(s)| ==> NoUpper(Words(s)[i])
    decreases |s|
  {
    if s != [] {
      if IsSpace(s[0]) {
        WordsAreWords(s[1..]);
      } else {
        var n := WordLen(s);
        WordsAreWords(s[n..]);
        var ws := Words(s);
        assert ws == [s[..n]] + Words(s[n..]);
        forall i | 0 <= i < |ws| ensures IsWord(ws[i]) && (NoUpper(s) ==> NoUpper(ws[i])) {
          if i > 0 { assert ws[i] == Words(s[n..])[i - 1]; }
        }
      }
    }
  }

  /** `" ".join(ws)` */
  function Join(ws: seq<string>): string {
    if |ws| == 0 then ""
    else if |ws| == 1 then ws[0]
    else ws[0] + " " + Join(ws[1..])
  }

  /** `normalize_colname` */
  function Normalize(name: string): string {
    Join(Words(Lower(Strip(name))))
  }

  /**
   * The shape of a normalised name: no whitespace at either end, no whitespace other
   * than a plain space, never two whitespace characters in a row, no upper-case letter.
   */
  ghost predicate NormalForm(s: string) {
    && (s != [] ==> !IsSpace(s[0]) && !IsSpace(s[|s| - 1]))
    && (forall i :: 0 <= i < |s| && IsSpace(s[i]) ==> s[i] == ' ')
    && (forall i :: 0 <= i < |s| - 1 ==> !SpacePair(s, i))
    && NoUpper(s)
  }

  /** Characters `i` and `i + 1` of `s` are both whitespace. */
  predicate SpacePair(s: string, i: nat)
    requires i + 1 < |s|
  {
    IsSpace(s[i]) && IsSpace(s[i + 1])
  }

  /** Joining words with single spaces gives a string in normal form. */
  lemma {:induction false} JoinNormalForm(ws: seq<string>)
    requires forall i :: 0 <= i < |ws| ==> IsWord(ws[i]) && NoUpper(ws[i])
    ensures NormalForm(Join(ws))
  {
    if |ws| > 1 {
      JoinNormalForm(ws[1..]);
      var w, t := ws[0], Join(ws[1..]);
      var s := w + " " + t;
      assert Join(ws) == s;
      assert t != [] by { assert Join(ws[1..]) == ws[1] || Join(ws[1..]) == ws[1] + " " + Join(ws[2..]); }
      forall i | 0 <= i < |s| - 1
        ensures !SpacePair(s, i)
      {
        if i < |w| {
          assert s[i] == w[i];
        } else if i > |w| {
          assert s[i] == t[i - |w| - 1] && s[i + 1] == t[i - |w|];
          assert !SpacePair(t, i - |w| - 1);
        } else {
          assert s[i + 1] == t[0];
        }
      }
      forall i | 0 <= i < |s| && IsSpace(s[i])
        ensures s[i] == ' '
      {
        if i > |w| {
          assert s[i] == t[i - |w| - 1];
        }
      }
      forall i | 0 <= i < |s|
        ensures !IsUpper(s[i])
      {
        if i < |w| {
          assert s[i] == w[i];
        } else if i > |w| {
          assert s[i] == t[i - |w| - 1];
        }
      }
    }
  }

  /** The first word of a word followed by a space or by nothing is that word. */
  lemma {:induction false} WordLenOfWord(w: string, t: string)
    requires IsWord(w)
    requires t == [] || IsSpace(t[0])
    ensures WordLen(w + t) == |w|
    decreases |w|
  {
    if |w| > 1 {
      assert (w + t)[1..] == w[1..] + t;
      WordLenOfWord(w[1..], t);
    } else {
      assert (w + t)[1..] == t;
    }
  }

  /** Every character of `s` is whitespace. */
  predicate AllSpace(s: string) {
    forall i :: 0 <= i < |s| ==> IsSpace(s[i])
  }

  /** The first word of `a + t` stays inside `a` unless `a` is one word, when it runs on into `t`. */
  lemma {:induction false} WordLenAppend(a: string, t: string)
    ensures WordLen(a + t) == if WordLen(a) < |a| then WordLen(a) else |a| + WordLen(t)
    decreases |a|
  {
    if a == [] {
      assert a + t == t;
    } else if !IsSpace(a[0]) {
      assert (a + t)[0] == a[0];
      assert (a + t)[1..] == a[1..] + t;
      WordLenAppend(a[1..], t);
    } else {
      assert (a + t)[0] == a[0];
    }
  }

  lemma SpaceHeadStep(a: string, c: char, b: string)
    requires a != [] && IsSpace(a[0])
    ensures Words(a + [c] + b) == Words(a[1..] + [c] + b)
    ensures Words(a) == Words(a[1..])
  {
    var s := a + [c] + b;
    assert s[0] == a[0];
    assert s[1..] == a[1..] + [c] + b;
  }

  lemma WordHeadStep(a: string, c: char, b: string)
    requires IsSpace(c) && a != [] && !IsSpace(a[0]) && WordLen(a) < |a|
    ensures Words(a + [c] + b) == [a[..WordLen(a)]] + Words(a[WordLen(a)..] + [c] + b)
  {
    var s, n := a + [c] + b, WordLen(a);
    assert s == a + ([c] + b);
    WordLenAppend(a, [c] + b);
    assert s[0] == a[0];
    assert s[..n] == a[..n];
    assert s[n..] == a[n..] + [c] + b;
  }

  lemma LastWordStep(a: string, c: char, b: string)
    requires IsSpace(c) && a != [] && !IsSpace(a[0]) && WordLen(a) == |a|
    ensures Words(a + [c] + b) == [a] + Words(b)
    ensures Words(a) == [a]
  {
    var s, n := a + [c] + b, |a|;
    assert s == a + ([c] + b);
    assert WordLen([c] + b) == 0 by { assert ([c] + b)[0] == c; }
    WordLenAppend(a, [c] + b);
    assert s[0] == a[0];
    assert s[..n] == a;
    assert s[n..] == [c] + b;
    assert ([c] + b)[1..] == b;
    assert a[..n] == a && a[n..] == [];
  }

  /** `split()` cuts at every whitespace character: the words on either side stay apart. */
  lemma {:induction false} WordsAroundSpace(a: string, c: char, b: string)
    requires IsSpace(c)
    ensures Words(a + [c] + b) == Words(a) + Words(b)
    decreases |a|
  {
    if a == [] {
      assert a + [c] + b == [c] + b;
      assert ([c] + b)[1..] == b;
    } else if IsSpace(a[0]) {
      SpaceHeadStep(a, c, b);
      WordsAroundSpace(a[1..], c, b);
    } else if WordLen(a) < |a| {
      WordHeadStep(a, c, b);
      WordsAroundSpace(a[WordLen(a)..], c, b);
    } else {
      LastWordStep(a, c, b);
    }
  }

  /** A single word splits into itself. */
  lemma WordsOfWord(w: string)
    requires IsWord(w)
    ensures Words(w) == [w]
  {
    WordLenOfWord(w, []);
    assert w + [] == w;
    assert w[|w|..] == [];
  }

  /** A string of whitespace only has no words. */
  lemma {:induction false} WordsOfAllSpace(s: string)
    requires AllSpace(s)
    ensures Words(s) == []
    decreases |s|
  {
    if s != [] {
      WordsOfAllSpace(s[1..]);
    }
  }

  /** Splitting undoes joining, for words. */
  lemma {:induction false} WordsOfJoin(ws: seq<string>)
    requires forall i :: 0 <= i < |ws| ==> IsWord(ws[i])
    ensures Words(Join(ws)) == ws
  {
    if |ws| == 1 {
      WordsOfWord(ws[0]);
    } else if |ws| > 1 {
      var w, t := ws[0], Join(ws[1..]);
      assert Join(ws) == w + [' '] + t;
      WordsAroundSpace(w, ' ', t);
      WordsOfWord(w);
      WordsOfJoin(ws[1..]);
      assert ws == [w] + ws[1..];
    }
  }

  /** Leading whitespace contributes no word. */
  lemma {:induction false} WordsSkipLeading(p: string, t: string)
    requires AllSpace(p)
    ensures Words(p + t) == Words(t)
    decreases |p|
  {
    if p == [] {
      assert p + t == t;
    } else {
      assert (p + t)[0] == p[0];
      assert (p + t)[1..] == p[1..] + t;
      WordsSkipLeading(p[1..], t);
    }
  }

  /** Trailing whitespace contributes no word. */
  lemma WordsSkipTrailing(t: string, q: string)
    requires AllSpace(q)
    ensures Words(t + q) == Words(t)
  {
    if q == [] {
      assert t + q == t;
    } else {
      assert t + q == t + [q[0]] + q[1..];
      WordsAroundSpace(t, q[0], q[1..]);
      WordsOfAllSpace(q[1..]);
      assert Words(t) + [] == Words(t);
    }
  }

  lemma LowerAppend(a: string, b: string)
    ensures Lower(a + b) == Lower(a) + Lower(b)
  {
    assert forall i :: 0 <= i < |a + b| ==> Lower(a + b)[i] == (Lower(a) + Lower(b))[i];
  }

  lemma LowerAppend3(a: string, b: string, c: string)
    ensures Lower(a + b + c) == Lower(a) + Lower(b) + Lower(c)
  {
    LowerAppend(a + b, c);
    LowerAppend(a, b);
  }

  lemma LowerAllSpace(s: string)
    requires AllSpace(s)
    ensures AllSpace(Lower(s))
  {
  }

  /** Whitespace on either side contributes no word. */
  lemma WordsPadded(p: string, t: string, q: string)
    requires AllSpace(p) && AllSpace(q)
    ensures Words(p + t + q) == Words(t)
  {
    assert p + t + q == p + (t + q);
    WordsSkipLeading(p, t + q);
    WordsSkipTrailing(t, q);
  }

  lemma TrimStartParts(s: string) returns (p: string)
    ensures AllSpace(p) && s == p + TrimStart(s)
  {
    var k := |s| - |TrimStart(s)|;
    p := s[..k];
    assert AllSpace(p) by {
      forall i | 0 <= i < |p| ensures IsSpace(p[i]) { assert p[i] == s[i]; }
    }
    assert s == s[..k] + s[k..];
  }

  lemma {:induction false} TrimEndParts(s: string) returns (q: string)
    ensures AllSpace(q) && s == TrimEnd(s) + q
    decreases |s|
  {
    if s != [] && IsSpace(s[|s| - 1]) {
      var front := s[..|s| - 1];
      var rest := TrimEndParts(front);
      assert TrimEnd(s) == TrimEnd(front);
      q := rest + [s[|s| - 1]];
      assert AllSpace(q) by {
        forall i | 0 <= i < |q| ensures IsSpace(q[i]) {
          if i < |rest| { assert q[i] == rest[i]; }
        }
      }
      assert s == front + [s[|s| - 1]];
      assert s == TrimEnd(s) + q;
    } else {
      q := [];
    }
  }

  /** Removing leading whitespace before splitting changes no word. */
  lemma WordsIgnoreTrimStart(s: string)
    ensures Words(Lower(TrimStart(s))) == Words(Lower(s))
  {
    var p := TrimStartParts(s);
    LowerAppend(p, TrimStart(s));
    LowerAllSpace(p);
    WordsSkipLeading(Lower(p), Lower(TrimStart(s)));
  }

  /** Removing trailing whitespace before splitting changes no word. */
  lemma WordsIgnoreTrimEnd(s: string)
    ensures Words(Lower(TrimEnd(s))) == Words(Lower(s))
  {
    var q := TrimEndParts(s);
    LowerAppend(TrimEnd(s), q);
    LowerAllSpace(q);
    WordsSkipTrailing(Lower(TrimEnd(s)), Lower(q));
  }

  /** Stripping before splitting changes no word: `split()` already skips the outer whitespace. */
  lemma WordsIgnoreStrip(s: string)
    ensures Words(Lower(Strip(s))) == Words(Lower(s))
  {
    WordsIgnoreTrimStart(s);
    WordsIgnoreTrimEnd(TrimStart(s));
  }

  /** `normalize_colname` is the single-space join of the words of the lower-cased name. */
  lemma NormalizeWithoutStrip(s: string)
    ensures Normalize(s) == Join(Words(Lower(s)))
  {
    WordsIgnoreStrip(s);
  }

  /** Names that lower-case alike normalise alike. */
  lemma NormalizeIgnoresCase(a: string, b: string)
    requires Lower(a) == Lower(b)
    ensures Normalize(a) == Normalize(b)
  {
    NormalizeWithoutStrip(a);
    NormalizeWithoutStrip(b);
  }

  /** Whitespace around a name does not change its normal form. */
  lemma NormalizeIgnoresPadding(p: string, s: string, q: string)
    requires AllSpace(p) && AllSpace(q)
    ensures Normalize(p + s + q) == Normalize(s)
  {
    NormalizeWithoutStrip(p + s + q);
    NormalizeWithoutStrip(s);
    LowerAppend3(p, s, q);
    LowerAllSpace(p);
    LowerAllSpace(q);
    WordsPadded(Lower(p), Lower(s), Lower(q));
  }

  /** Splitting at a run of whitespace is splitting at a single whitespace character. */
  lemma WordsAroundRun(a: string, run: string, b: string)
    requires run != [] && AllSpace(run)
    ensures Words(a + run + b) == Words(a) + Words(b)
  {
    assert a + run + b == a + [run[0]] + (run[1..] + b);
    WordsAroundSpace(a, run[0], run[1..] + b);
    WordsSkipLeading(run[1..], b);
  }

  /** Inside a name, any non-empty run of whitespace counts as one plain space. */
  lemma NormalizeCollapsesWhitespace(a: string, run: string, b: string)
    requires run != [] && AllSpace(run)
    ensures Normalize(a + run + b) == Normalize(a + " " + b)
  {
    NormalizeWithoutStrip(a + run + b);
    NormalizeWithoutStrip(a + " " + b);
    LowerAppend3(a, run, b);
    LowerAppend3(a, " ", b);
    LowerAllSpace(run);
    WordsAroundRun(Lower(a), Lower(run), Lower(b));
    WordsAroundRun(Lower(a), Lower(" "), Lower(b));
  }

  /** A suffix of a normal-form string that starts at a non-space is in normal form. */
  lemma NormalFormSuffix(s: string, k: nat)
    requires NormalForm(s) && k < |s| && !IsSpace(s[k])
    ensures NormalForm(s[k..])
  {
    var rest := s[k..];
    assert rest[|rest| - 1] == s[|s| - 1];
    assert forall i :: 0 <= i < |rest| ==> rest[i] == s[k + i];
    forall i | 0 <= i < |rest| - 1 ensures !SpacePair(rest, i) {
      assert !SpacePair(s, k + i);
    }
  }

  /** After its first word and the whitespace character that ends it, `s` splits into the rest. */
  lemma WordsStep(s: string)
    requires s != [] && !IsSpace(s[0]) && WordLen(s) < |s|
    ensures Words(s) == [s[..WordLen(s)]] + Words(s[WordLen(s) + 1..])
  {
    var n := WordLen(s);
    assert s[n..][0] == s[n];
    assert s[n..][1..] == s[n + 1..];
  }

  lemma SplitAtSpace(s: string, n: nat)
    requires n < |s| && s[n] == ' '
    ensures s == s[..n] + " " + s[n + 1..]
  {
    assert s[n..] == [s[n]] + s[n + 1..];
    assert s == s[..n] + s[n..];
  }

  /** In a normal-form string a space is a single plain space, followed by a non-space. */
  lemma NormalFormSpace(s: string, n: nat)
    requires NormalForm(s) && n < |s| && IsSpace(s[n])
    ensures s[n] == ' ' && n + 1 < |s| && !IsSpace(s[n + 1])
  {
    assert n != |s| - 1;
    assert !SpacePair(s, n);
  }

  /**
   * A normal-form string that is more than one word splits at its first space into the
   * first word and a rest that is again in normal form.
   */
  lemma NormalFormTail(s: string)
    requires NormalForm(s) && s != [] && WordLen(s) < |s|
    ensures NormalForm(s[WordLen(s) + 1..])
    ensures Words(s) == [s[..WordLen(s)]] + Words(s[WordLen(s) + 1..])
    ensures s == s[..WordLen(s)] + " " + s[WordLen(s) + 1..]
  {
    var n := WordLen(s);
    NormalFormSpace(s, n);
    NormalFormSuffix(s, n + 1);
    WordsStep(s);
    SplitAtSpace(s, n);
  }

  /** Joining undoes splitting, for a string in normal form. */
  lemma {:induction false} JoinOfWords(s: string)
    requires NormalForm(s)
    ensures Join(Words(s)) == s
    decreases |s|
  {
    if s != [] {
      var n := WordLen(s);
      var w := s[..n];
      if n == |s| {
        assert s[n..] == [];
        assert Words(s) == [w];
      } else {
        NormalFormTail(s);
        var rest := s[n + 1..];
        JoinOfWords(rest);
        var ws := Words(rest);
        assert Join([w] + ws) == w + " " + Join(ws) by { assert ([w] + ws)[1..] == ws; }
      }
    }
  }

  lemma LowerOfNoUpper(s: string)
    requires NoUpper(s)
    ensures Lower(s) == s
  {
  }

  lemma StripOfTrimmed(s: string)
    requires s != [] ==> !IsSpace(s[0]) && !IsSpace(s[|s| - 1])
    ensures Strip(s) == s
  {
  }

  /** What `normalize_colname` returns has the normal form. */
  lemma NormalizeNormalForm(name: string)
    ensures NormalForm(Normalize(name))
  {
    WordsAreWords(Lower(Strip(name)));
    JoinNormalForm(Words(Lower(Strip(name))));
  }

  /** The strings `normalize_colname` leaves unchanged are exactly those in normal form. */
  lemma NormalizeFixedPoints(s: string)
    ensures Normalize(s) == s <==> NormalForm(s)
  {
    if NormalForm(s) {
      StripOfTrimmed(s);
      LowerOfNoUpper(s);
      JoinOfWords(s);
    } else {
      NormalizeNormalForm(s);
    }
  }

  /** `normalize_colname` is idempotent. */
  lemma NormalizeIdempotent(name: string)
    ensures Normalize(Normalize(name)) == Normalize(name)
  {
    NormalizeNormalForm(name);
    NormalizeFixedPoints(Normalize(name));
  }

  /** Two names normalise alike exactly when they split into the same lower-cased words. */
  lemma NormalizeAgreesIffSameWords(a: string, b: string)
    ensures Normalize(a) == Normalize(b) <==> Words(Lower(Strip(a))) == Words(Lower(Strip(b)))
  {
    WordsAreWords(Lower(Strip(a)));
    WordsAreWords(Lower(Strip(b)));
    WordsOfJoin(Words(Lower(Strip(a))));
    WordsOfJoin(Words(Lower(Strip(b))));
  }
}
