/** Decimal numerals and whitespace-separated words: the pieces of the
    solution text that `VRPSolution::to_string` writes and `check_sol.rs`
    reads back. */
module Text {
  import opened Prelude

  /** The ASCII characters `str::split_whitespace` separates words at
      (the non-ASCII Unicode whitespace characters are not modelled). */
  predicate IsWhite(c: char)
  {
    c == ' ' || c == '\t' || c == '\n' || c == '\r'
  }

  /** A word: non-empty and free of whitespace. */
  predicate IsWord(w: string)
  {
    |w| > 0 && forall k :: 0 <= k < |w| ==> !IsWhite(w[k])
  }

  predicate IsDigit(c: char)
  {
    '0' <= c <= '9'
  }

  function DigitChar(d: nat): (c: char)
    requires d < 10
    ensures IsDigit(c) && (c as int) - ('0' as int) == d
  {
    (('0' as int) + d) as char
  }

  /** `{}` formatting of an unsigned integer: decimal, no leading zeros. */
  function NatToString(n: nat): (s: string)
    ensures |s| > 0 && forall k :: 0 <= k < |s| ==> IsDigit(s[k])
    decreases n
  {
    if n < 10 then [DigitChar(n)] else NatToString(n / 10) + [DigitChar(n % 10)]
  }

  /** The value of a non-empty digit string, most significant digit first. */
  function DigitsValue(s: string): nat
    requires |s| > 0 && forall k :: 0 <= k < |s| ==> IsDigit(s[k])
    decreases |s|
  {
    assert IsDigit(s[|s| - 1]);
    var d := (s[|s| - 1] as int) - ('0' as int);
    assert 0 <= d;
    if |s| == 1 then d else DigitsValue(s[..|s| - 1]) * 10 + d
  }

  /** `str::parse::<usize>`: an optional `+`, then one or more decimal
      digits; anything else is an error. The usize overflow error is not
      modelled. */
  function ParseNat(s: string): (r: Option<nat>)
    ensures r.Some? ==> |s| > 0
  {
    var body := if |s| > 0 && s[0] == '+' then s[1..] else s;
    if |body| > 0 && forall k :: 0 <= k < |body| ==> IsDigit(body[k]) then Some(DigitsValue(body))
    else None
  }

  /** Reading back a printed number gives the number. */
  lemma {:induction false} ParseNatToString(n: nat)
    ensures ParseNat(NatToString(n)) == Some(n)
    decreases n
  {
    var s := NatToString(n);
    assert s[0] != '+' by { assert IsDigit(s[0]); }
    DigitsValueToString(n);
  }

  lemma {:induction false} DigitsValueToString(n: nat)
    ensures DigitsValue(NatToString(n)) == n
    decreases n
  {
    if n >= 10 {
      DigitsValueToString(n / 10);
      var s := NatToString(n);
      assert s[..|s| - 1] == NatToString(n / 10);
    }
  }

  lemma NatToStringIsWord(n: nat)
    ensures IsWord(NatToString(n))
  {
    var s := NatToString(n);
    forall k | 0 <= k < |s| ensures !IsWhite(s[k]) {
      assert IsDigit(s[k]);
    }
  }

  /** The position of the first whitespace character at or after i, or |s|. */
  function WordEnd(s: string, i: nat): (e: nat)
    requires i <= |s|
    ensures i <= e <= |s|
    ensures forall k :: i <= k < e ==> !IsWhite(s[k])
    ensures e < |s| ==> IsWhite(s[e])
    decreases |s| - i
  {
    if i == |s| || IsWhite(s[i]) then i else WordEnd(s, i + 1)
  }

  /** `str::split_whitespace`: the maximal runs of non-whitespace characters. */
  function Words(s: string): (ws: seq<string>)
    ensures forall k :: 0 <= k < |ws| ==> IsWord(ws[k])
    decreases |s|
  {
    if s == [] then []
    else if IsWhite(s[0]) then Words(s[1..])
    else
      var e := WordEnd(s, 0);
      [s[..e]] + Words(s[e..])
  }

  /** `[String]::join(sep)`: the strings with sep between neighbours. */
  function Join(ss: seq<string>, sep: string): string
  {
    if ss == [] then "" else if |ss| == 1 then ss[0] else ss[0] + sep + Join(ss[1..], sep)
  }

  /** A word followed by a whitespace character and more text splits off as that word. */
  lemma WordsSep(w: string, sep: char, rest: string)
    requires IsWord(w) && IsWhite(sep)
    ensures Words(w + [sep] + rest) == [w] + Words(rest)
  {
    var s := w + [sep] + rest;
    WordEndOfWord(w, sep, rest, 0);
    assert s[..|w|] == w;
    assert s[|w|..] == [sep] + rest;
    assert ([sep] + rest)[1..] == rest;
  }

  lemma WordsCons(w: string, rest: string)
    requires IsWord(w)
    ensures Words(w + " " + rest) == [w] + Words(rest)
  {
    WordsSep(w, ' ', rest);
  }

  lemma {:induction false} WordEndOfWord(w: string, sep: char, rest: string, i: nat)
    requires IsWord(w) && IsWhite(sep) && i <= |w|
    ensures WordEnd(w + [sep] + rest, i) == |w|
    decreases |w| - i
  {
    var s := w + [sep] + rest;
    if i < |w| {
      assert s[i] == w[i];
      WordEndOfWord(w, sep, rest, i + 1);
    } else {
      assert s[i] == sep;
    }
  }

  lemma WordsSingle(w: string)
    requires IsWord(w)
    ensures Words(w) == [w]
  {
    assert WordEnd(w, 0) == |w| by { WordEndAll(w, 0); }
    assert w[..|w|] == w;
    assert w[|w|..] == [];
  }

  lemma {:induction false} WordEndAll(w: string, i: nat)
    requires IsWord(w) && i <= |w|
    ensures WordEnd(w, i) == |w|
    decreases |w| - i
  {
    if i < |w| {
      WordEndAll(w, i + 1);
    }
  }

  /** Splitting words joined by spaces gives the words back. */
  lemma {:induction false} WordsJoin(ws: seq<string>)
    requires forall k :: 0 <= k < |ws| ==> IsWord(ws[k])
    ensures Words(Join(ws, " ")) == ws
  {
    if |ws| == 1 {
      WordsSingle(ws[0]);
    } else if |ws| > 1 {
      WordsCons(ws[0], Join(ws[1..], " "));
      WordsJoin(ws[1..]);
    }
  }

  /** Words joined by spaces, then a whitespace character and more text,
      split into those words and then the words of the rest. */
  lemma {:induction false} WordsJoinAppend(ws: seq<string>, sep: char, rest: string)
    requires |ws| > 0 && forall k :: 0 <= k < |ws| ==> IsWord(ws[k])
    requires IsWhite(sep)
    ensures Words(Join(ws, " ") + [sep] + rest) == ws + Words(rest)
  {
    if |ws| == 1 {
      WordsSep(ws[0], sep, rest);
    } else {
      assert Join(ws, " ") + [sep] + rest == ws[0] + " " + (Join(ws[1..], " ") + [sep] + rest);
      WordsCons(ws[0], Join(ws[1..], " ") + [sep] + rest);
      WordsJoinAppend(ws[1..], sep, rest);
    }
  }

  /** Leading whitespace is skipped. */
  lemma WordsNewline(rest: string)
    ensures Words("\n" + rest) == Words(rest)
  {
    assert ("\n" + rest)[1..] == rest;
  }
}
