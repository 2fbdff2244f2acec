/** The string methods the command loop relies on, restricted to ASCII:
    `str.strip()`, `str.split()` with no separator, `str.startswith`,
    `str.isdigit()` and `int()` on a digit string. */
module Text {

  /** Python's `str.isspace` on ASCII: space, `\t \n \v \f \r`, and the
      separators `\x1c`..`\x1f`. */
  predicate IsSpace(ch: char)
  {
    ch == ' ' || '\t' <= ch <= '\r' || '\U{1C}' <= ch <= '\U{1F}'
  }

  predicate AllSpace(s: string)
  {
    forall i :: 0 <= i < |s| ==> IsSpace(s[i])
  }

  /** Neither end of `s` is whitespace: `s` is what `strip()` could return. */
  predicate Trimmed(s: string)
  {
    |s| == 0 || (!IsSpace(s[0]) && !IsSpace(s[|s| - 1]))
  }

  /** `s.lstrip()` */
  function TrimStart(s: string): (r: string)
    decreases |s|
  {
    if |s| > 0 && IsSpace(s[0]) then TrimStart(s[1..]) else s
  }

  /** `s.rstrip()` */
  function TrimEnd(s: string): (r: string)
    decreases |s|
  {
    if |s| > 0 && IsSpace(s[|s| - 1]) then TrimEnd(s[..|s| - 1]) else s
  }

  /** `s.strip()` */
  function Strip(s: string): (r: string)
  {
    TrimEnd(TrimStart(s))
  }

  /** `lstrip()` cuts whitespace off the front and stops at the first
      other character. */
  lemma {:induction false} TrimStartDropsSpace(s: string)
    ensures |TrimStart(s)| <= |s| && TrimStart(s) == s[|s| - |TrimStart(s)|..]
    ensures AllSpace(s[..|s| - |TrimStart(s)|])
    ensures |TrimStart(s)| == 0 || !IsSpace(TrimStart(s)[0])
    decreases |s|
  {
    if |s| > 0 && IsSpace(s[0]) {
      var u := TrimStart(s[1..]);
      TrimStartDropsSpace(s[1..]);
      assert TrimStart(s) == u;
      var k := |s| - |u|;
      assert s[1..][k - 1..] == s[k..];
      forall m | 0 <= m < k
        ensures IsSpace(s[..k][m])
      {
        if m > 0 {
          assert s[..k][m] == s[1..][..k - 1][m - 1];
        }
      }
    } else {
      assert s[..0] == [];
    }
  }

  /** `rstrip()` cuts whitespace off the end and stops at the last other
      character. */
  lemma {:induction false} TrimEndDropsSpace(s: string)
    ensures |TrimEnd(s)| <= |s| && TrimEnd(s) == s[..|TrimEnd(s)|]
    ensures AllSpace(s[|TrimEnd(s)|..])
    ensures |TrimEnd(s)| == 0 || !IsSpace(TrimEnd(s)[|TrimEnd(s)| - 1])
    decreases |s|
  {
    var n := |s|;
    if n > 0 && IsSpace(s[n - 1]) {
      TrimEndDropsSpace(s[..n - 1]);
      var j := |TrimEnd(s)|;
      assert s[..n - 1][..j] == s[..j];
      assert s[j..] == s[..n - 1][j..] + [s[n - 1]];
    } else {
      assert s[n..] == [];
    }
  }

  /** `strip()` leaves no whitespace at either end. */
  lemma StripIsTrimmed(s: string)
    ensures Trimmed(Strip(s))
  {
    TrimStartDropsSpace(s);
    var t := TrimStart(s);
    TrimEndDropsSpace(t);
    if |Strip(s)| > 0 {
      assert Strip(s)[0] == t[0];
    }
  }

  /** `strip()` returns a slice of its argument, and everything it cuts off
      is whitespace. */
  lemma StripIsSlice(s: string)
    ensures exists i, j :: 0 <= i <= j <= |s| && AllSpace(s[..i]) && AllSpace(s[j..]) && Strip(s) == s[i..j]
  {
    TrimStartDropsSpace(s);
    var t := TrimStart(s);
    var i := |s| - |t|;
    TrimEndDropsSpace(t);
    var j := i + |Strip(s)|;
    assert s[j..] == t[|Strip(s)|..];
    assert Strip(s) == s[i..j];
    assert 0 <= i <= j <= |s| && AllSpace(s[..i]) && AllSpace(s[j..]) && Strip(s) == s[i..j];
  }

  lemma {:induction false} TrimStartSkipsSpace(pre: string, s: string)
    requires AllSpace(pre)
    ensures TrimStart(pre + s) == TrimStart(s)
    decreases |pre|
  {
    if |pre| > 0 {
      assert (pre + s)[0] == pre[0];
      assert (pre + s)[1..] == pre[1..] + s;
      TrimStartSkipsSpace(pre[1..], s);
    } else {
      assert pre + s == s;
    }
  }

  lemma {:induction false} TrimEndSkipsSpace(s: string, post: string)
    requires AllSpace(post)
    ensures TrimEnd(s + post) == TrimEnd(s)
    decreases |post|
  {
    if |post| > 0 {
      var n := |post|;
      assert (s + post)[..|s + post| - 1] == s + post[..n - 1];
      TrimEndSkipsSpace(s, post[..n - 1]);
    } else {
      assert s + post == s;
    }
  }

  lemma {:induction false} TrimStartAppend(s: string, t: string)
    ensures TrimStart(s + t) == if |TrimStart(s)| == 0 then TrimStart(t) else TrimStart(s) + t
    decreases |s|
  {
    if |s| == 0 {
      assert s + t == t;
    } else if IsSpace(s[0]) {
      assert (s + t)[1..] == s[1..] + t;
      TrimStartAppend(s[1..], t);
    }
  }

  /** Whitespace around a line does not change what `strip()` returns. */
  lemma StripIgnoresPadding(pre: string, s: string, post: string)
    requires AllSpace(pre) && AllSpace(post)
    ensures Strip(pre + s + post) == Strip(s)
  {
    assert pre + s + post == pre + (s + post);
    TrimStartSkipsSpace(pre, s + post);
    TrimStartAppend(s, post);
    if |TrimStart(s)| == 0 {
      TrimStartSkipsSpace(post, []);
      assert post + [] == post;
    } else {
      TrimEndSkipsSpace(TrimStart(s), post);
    }
  }

  /** `strip()` undoes padding: a trimmed text surrounded by whitespace
      comes back unchanged. With empty padding this is idempotence. */
  lemma StripPadded(pre: string, t: string, post: string)
    requires AllSpace(pre) && AllSpace(post) && Trimmed(t)
    ensures Strip(pre + t + post) == t
  {
    StripIgnoresPadding(pre, t, post);
  }

  /** A line without surrounding whitespace is its own `strip()`. */
  lemma StripTrimmed(s: string)
    requires Trimmed(s)
    ensures Strip(s) == s
  {
    StripPadded([], s, []);
    assert [] + s + [] == s;
  }

  lemma StripIdempotent(s: string)
    ensures Strip(Strip(s)) == Strip(s)
  {
    StripIsTrimmed(s);
    StripPadded([], Strip(s), []);
    assert [] + Strip(s) + [] == Strip(s);
  }

  /** A token of `split()`: non-empty and free of whitespace. */
  predicate IsWord(w: string)
  {
    |w| > 0 && forall i :: 0 <= i < |w| ==> !IsSpace(w[i])
  }

  /** The longest whitespace-free prefix of `s`. */
  function LeadingWord(s: string): (w: string)
    ensures |w| <= |s| && w == s[..|w|]
    ensures forall i :: 0 <= i < |w| ==> !IsSpace(w[i])
    ensures |w| == |s| || IsSpace(s[|w|])
    decreases |s|
  {
    if |s| == 0 || IsSpace(s[0]) then [] else [s[0]] + LeadingWord(s[1..])
  }

  /** `s.split()`: the maximal runs of non-whitespace, in order. */
  function Split(s: string): (words: seq<string>)
    ensures forall i :: 0 <= i < |words| ==> IsWord(words[i])
    decreases |s|
  {
    TrimStartDropsSpace(s);
    var t := TrimStart(s);
    if |t| == 0 then []
    else
      var w := LeadingWord(t);
      [w] + Split(t[|w|..])
  }

  /** A non-empty run of whitespace: what `split()` treats as one break
      between two tokens. */
  predicate IsGap(sep: string)
  {
    |sep| > 0 && AllSpace(sep)
  }

  predicate AllGaps(seps: seq<string>)
  {
    forall i :: 0 <= i < |seps| ==> IsGap(seps[i])
  }

  predicate AllWords(words: seq<string>)
  {
    forall i :: 0 <= i < |words| ==> IsWord(words[i])
  }

  /** `words[0] + seps[0] + words[1] + ... + words[n-1]`: the words of a line
      with the text between them. */
  function Join(words: seq<string>, seps: seq<string>): string
    requires |words| == 0 || |seps| == |words| - 1
    decreases |words|
  {
    if |words| == 0 then []
    else if |words| == 1 then words[0]
    else words[0] + seps[0] + Join(words[1..], seps[1..])
  }

  lemma {:induction false} LeadingWordOf(w: string, rest: string)
    requires IsWord(w)
    requires |rest| == 0 || IsSpace(rest[0])
    ensures LeadingWord(w + rest) == w
    decreases |w|
  {
    if |w| > 1 {
      assert (w + rest)[1..] == w[1..] + rest;
      LeadingWordOf(w[1..], rest);
      assert w == [w[0]] + w[1..];
    } else {
      assert (w + rest)[1..] == rest;
      assert w == [w[0]];
    }
  }

  /** `split()` takes back apart any line made of words separated by runs
      of whitespace, whatever those runs are. */
  lemma {:induction false} SplitJoin(words: seq<string>, seps: seq<string>)
    requires AllWords(words) && AllGaps(seps)
    requires |words| == 0 || |seps| == |words| - 1
    ensures Split(Join(words, seps)) == words
    decreases |words|
  {
    if |words| == 1 {
      var w := words[0];
      assert TrimStart(w) == w;
      LeadingWordOf(w, []);
      assert w + [] == w;
      assert TrimStart(w[|w|..]) == [];
    } else if |words| > 1 {
      var w, sep := words[0], seps[0];
      var rest := sep + Join(words[1..], seps[1..]);
      assert Join(words, seps) == w + rest;
      assert (w + rest)[0] == w[0];
      assert TrimStart(w + rest) == w + rest;
      assert rest[0] == sep[0];
      LeadingWordOf(w, rest);
      assert (w + rest)[|w|..] == rest;
      TrimStartSkipsSpace(sep, Join(words[1..], seps[1..]));
      assert Split(rest) == Split(Join(words[1..], seps[1..]));
      SplitJoin(words[1..], seps[1..]);
      assert words == [w] + words[1..];
    }
  }

  /** A joined line begins with its first word and has no whitespace at
      either end. */
  lemma {:induction false} JoinShape(words: seq<string>, seps: seq<string>)
    requires |words| > 0 && AllWords(words) && AllGaps(seps) && |seps| == |words| - 1
    ensures StartsWith(Join(words, seps), words[0])
    ensures Trimmed(Join(words, seps))
    decreases |words|
  {
    if |words| > 1 {
      JoinShape(words[1..], seps[1..]);
      var u := Join(words, seps);
      var rest := Join(words[1..], seps[1..]);
      assert u == words[0] + (seps[0] + rest);
      assert u[..|words[0]|] == words[0];
      assert u[|u| - 1] == rest[|rest| - 1];
    }
  }

  /** `s.startswith(prefix)` */
  predicate StartsWith(s: string, prefix: string)
  {
    |prefix| <= |s| && s[..|prefix|] == prefix
  }

  /** A prefix of a prefix is a prefix. */
  lemma StartsWithTransitive(s: string, w: string, prefix: string)
    requires StartsWith(s, w) && StartsWith(w, prefix)
    ensures StartsWith(s, prefix)
  {
    assert s[..|prefix|] == w[..|prefix|];
  }

  predicate IsDigit(ch: char)
  {
    '0' <= ch <= '9'
  }

  /** `s.isdigit()` on ASCII: non-empty and made of decimal digits only. */
  predicate IsDigits(s: string)
  {
    |s| > 0 && forall i :: 0 <= i < |s| ==> IsDigit(s[i])
  }

  function DigitValue(ch: char): (d: nat)
    requires IsDigit(ch)
    ensures d < 10
  {
    (ch as int) - ('0' as int)
  }

  function DigitChar(d: nat): (ch: char)
    requires d < 10
    ensures IsDigit(ch) && DigitValue(ch) == d
  {
    (('0' as int) + d) as char
  }

  /** `int(s)` for a string of decimal digits. */
  function DecimalValue(s: string): nat
    requires forall i :: 0 <= i < |s| ==> IsDigit(s[i])
    decreases |s|
  {
    if |s| == 0 then 0
    else DecimalValue(s[..|s| - 1]) * 10 + DigitValue(s[|s| - 1])
  }

  /** `str(n)` for a natural number: its decimal digits, no leading zero. */
  function DecimalString(n: nat): (s: string)
    decreases n
  {
    if n < 10 then [DigitChar(n)] else DecimalString(n / 10) + [DigitChar(n % 10)]
  }

  /** `int(str(n)) == n`, and `str(n).isdigit()` holds. */
  lemma {:induction false} DecimalRoundTrip(n: nat)
    ensures IsDigits(DecimalString(n))
    ensures DecimalValue(DecimalString(n)) == n
    decreases n
  {
    if n >= 10 {
      DecimalRoundTrip(n / 10);
      var s := DecimalString(n);
      assert s[..|s| - 1] == DecimalString(n / 10);
    }
  }

  /** Leading zeros are accepted and ignored: `int("0" + s) == int(s)`. */
  lemma {:induction false} DecimalLeadingZero(s: string)
    requires forall i :: 0 <= i < |s| ==> IsDigit(s[i])
    ensures DecimalValue("0" + s) == DecimalValue(s)
    decreases |s|
  {
    if |s| > 0 {
      var z := "0" + s;
      assert z[..|z| - 1] == "0" + s[..|s| - 1];
      DecimalLeadingZero(s[..|s| - 1]);
    }
  }
}
