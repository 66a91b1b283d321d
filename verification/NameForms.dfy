/** What sanitising and normalising make of every name that is spelled as words with gaps between them. */
module NameForms {
  import opened Text
  import opened Names

  /** Neither a letter, nor a digit, nor a hyphen, in whatever case. */
  predicate Foreign(c: char) {
    !('a' <= c <= 'z' || 'A' <= c <= 'Z' || '0' <= c <= '9' || c == '-')
  }

  /** Foreign or a hyphen. */
  predicate Gap(c: char) {
    c == '-' || Foreign(c)
  }

  predicate All(s: string, p: char -> bool) {
    forall i :: 0 <= i < |s| ==> p(s[i])
  }

  /** A word is not empty and lowers to label characters. */
  predicate Word(s: string) {
    s != "" && forall i :: 0 <= i < |s| ==> !Foreign(s[i])
  }

  /** A word without hyphens. */
  predicate Alphanumeric(s: string) {
    s != "" && forall i :: 0 <= i < |s| ==> !Gap(s[i])
  }

  function Spelled(words: seq<string>, gaps: seq<string>): string
    requires |words| == |gaps| + 1
  {
    if gaps == [] then words[0] else words[0] + gaps[0] + Spelled(words[1..], gaps[1..])
  }

  function Lowered(words: seq<string>): (r: seq<string>)
    ensures |r| == |words|
  {
    seq(|words|, i requires 0 <= i < |words| => ToLower(words[i]))
  }

  lemma ToLowerAppend(a: string, b: string)
    ensures ToLower(a + b) == ToLower(a) + ToLower(b)
  {
  }

  // ----- replacing runs -----

  /** Replacing works on the two sides of any place apart from each other, unless it lies inside a run. */
  lemma {:induction false} RunsAppend(a: string, b: string)
    requires a == "" || b == "" || LabelChar(a[|a| - 1]) || LabelChar(b[0])
    ensures ReplaceRuns(a + b) == ReplaceRuns(a) + ReplaceRuns(b)
  {
    if a == "" {
      assert a + b == b;
    } else if b == "" {
      assert a + b == a;
    } else {
      assert (a + b)[0] == a[0] && (a + b)[1..] == a[1..] + b;
      if |a| > 1 {
        assert a[1..][|a[1..]| - 1] == a[|a| - 1] && (a + b)[1] == a[1];
      } else {
        assert a[1..] == "" && (a + b)[1] == b[0];
      }
      RunsAppend(a[1..], b);
    }
  }

  lemma {:induction false} RunOfForeign(s: string)
    requires s != "" && forall i :: 0 <= i < |s| ==> !LabelChar(s[i])
    ensures ReplaceRuns(s) == "-"
  {
    if |s| > 1 {
      RunOfForeign(s[1..]);
    } else {
      assert s[1..] == "";
    }
  }

  lemma {:induction false} RunsOfGap(s: string)
    requires All(s, Gap)
    ensures All(ReplaceRuns(ToLower(s)), IsHyphen)
    ensures s != "" ==> ReplaceRuns(ToLower(s)) != ""
    ensures s != "" && All(s, Foreign) ==> ReplaceRuns(ToLower(s)) == "-"
  {
    if s != "" {
      var t := s[1..];
      RunsOfGap(t);
      assert ToLower(s)[1..] == ToLower(t) && ToLower(s)[0] == LowerChar(s[0]);
      assert LabelChar(LowerChar(s[0])) ==> s[0] == '-';
      if All(s, Foreign) {
        RunOfForeign(ToLower(s));
      }
    }
  }

  lemma RunsOfWord(s: string)
    requires Word(s)
    ensures ReplaceRuns(ToLower(s)) == ToLower(s) && LabelChar(ToLower(s)[0]) && LabelChar(ToLower(s)[|s| - 1])
  {
    ReplaceRunsIsLabel(ToLower(s));
  }

  /** What replacing makes of the gaps. */
  function Dashed(gaps: seq<string>): (r: seq<string>)
    ensures |r| == |gaps|
  {
    seq(|gaps|, i requires 0 <= i < |gaps| => ReplaceRuns(ToLower(gaps[i])))
  }

  predicate Gaps(gaps: seq<string>, p: char -> bool) {
    forall i :: 0 <= i < |gaps| ==> gaps[i] != "" && All(gaps[i], p)
  }

  lemma SpelledEnds(words: seq<string>, gaps: seq<string>)
    requires |words| == |gaps| + 1 && forall i :: 0 <= i < |words| ==> words[i] != ""
    ensures var s, last := Spelled(words, gaps), words[|words| - 1];
            s != "" && s[0] == words[0][0] && s[|s| - 1] == last[|last| - 1]
  {
    if gaps != [] {
      SpelledEnds(words[1..], gaps[1..]);
    }
  }

  lemma {:induction false} RunsSpelled(words: seq<string>, gaps: seq<string>)
    requires |words| == |gaps| + 1 && (forall i :: 0 <= i < |words| ==> Word(words[i])) && Gaps(gaps, Gap)
    ensures ReplaceRuns(ToLower(Spelled(words, gaps))) == Spelled(Lowered(words), Dashed(gaps))
  {
    hide ReplaceRuns, ToLower, LabelChar, Foreign;
    RunsOfWord(words[0]);
    if gaps != [] {
      var w, g, rest := words[0], gaps[0], Spelled(words[1..], gaps[1..]);
      RunsSpelled(words[1..], gaps[1..]);
      SpelledEnds(words[1..], gaps[1..]);
      RunsOfWord(words[1]);
      ToLowerAppend(w + g, rest);
      ToLowerAppend(w, g);
      FirstLowered(rest, words[1]);
      RunsAppend(ToLower(w) + ToLower(g), ToLower(rest));
      RunsAppend(ToLower(w), ToLower(g));
      assert Lowered(words)[1..] == Lowered(words[1..]) && Dashed(gaps)[1..] == Dashed(gaps[1..]);
    }
  }

  lemma FirstLowered(s: string, w: string)
    requires s != "" && w != "" && s[0] == w[0]
    ensures ToLower(s) != "" && ToLower(s)[0] == ToLower(w)[0]
  {
  }

  // ----- names -----

  /** The ends of a name hold nothing that counts. */
  predicate Ends(lead: string, tail: string) {
    All(lead, Gap) && All(tail, Gap)
  }

  /** Dropping one leading slash makes no difference: it would become a hyphen and be trimmed. */
  lemma SlashIsTrimmed(name: string)
    ensures SanitizeName(name) == Trim(ReplaceRuns(ToLower(name)), IsHyphen)
  {
    if HasPrefix(name, "/") {
      var rest := ToLower(name[1..]);
      assert ToLower(name) == "/" + rest;
      assert ("/" + rest)[1..] == rest && !LabelChar('/');
      var r := ReplaceRuns(rest);
      if ReplaceRuns("/" + rest) != r {
        assert ReplaceRuns("/" + rest) == "-" + r;
        TrimSkips("-", r, "", IsHyphen);
        assert "-" + r + "" == "-" + r;
      }
    }
  }

  /** One leading slash and letter case do not matter. */
  lemma SlashAndCaseDoNotMatter(name: string)
    ensures SanitizeName("/" + name) == SanitizeName(name) == SanitizeName(ToLower(name))
  {
    hide ReplaceRuns, Trim;
    SlashIsTrimmed(name);
    SlashIsTrimmed(ToLower(name));
    assert ToLower(ToLower(name)) == ToLower(name);
    assert ("/" + name)[..1] == "/" && ("/" + name)[1..] == name;
    TrimmedOnce(name);
  }

  lemma TrimmedOnce(name: string)
    ensures SanitizeName("/" + name) == Trim(ReplaceRuns(ToLower(name)), IsHyphen)
  {
    assert ("/" + name)[..1] == "/" && ("/" + name)[1..] == name;
  }

  lemma EndsOfName(lead: string, s: string, tail: string)
    requires Ends(lead, tail)
    requires s == "" || (!Foreign(s[0]) && !Foreign(s[|s| - 1]))
    ensures s != "" ==> SanitizeName(lead + s + tail) == Trim(ReplaceRuns(ToLower(s)), IsHyphen)
    ensures s == "" ==> SanitizeName(lead + s + tail) == ""
  {
    hide ReplaceRuns, Trim;
    var l, m, t := ToLower(lead), ToLower(s), ToLower(tail);
    SlashIsTrimmed(lead + s + tail);
    ToLowerAppend(lead + s, tail);
    ToLowerAppend(lead, s);
    RunsOfGap(lead);
    RunsOfGap(tail);
    if s == "" {
      assert All(lead + tail, Gap);
      RunsOfGap(lead + tail);
      assert lead + s + tail == lead + tail;
      var r := ReplaceRuns(ToLower(lead + tail));
      assert r == r + "" + "";
      TrimMiddle(r, "", "", IsHyphen);
    } else {
      RunsAppend(l + m, t);
      RunsAppend(l, m);
      TrimSkips(ReplaceRuns(l), ReplaceRuns(m), ReplaceRuns(t), IsHyphen);
    }
  }

  lemma {:induction false} SingleDashes(words: seq<string>, gaps: seq<string>)
    requires |words| == |gaps| + 1 && forall i :: 0 <= i < |gaps| ==> gaps[i] == "-"
    ensures Spelled(words, gaps) == Join(words, '-')
  {
    if gaps != [] {
      SingleDashes(words[1..], gaps[1..]);
    }
  }

  /** Each run of foreign characters between words becomes one hyphen, and what stands before the first word and
      after the last goes; without a word nothing is left. */
  lemma SanitizeNameSpelled(lead: string, words: seq<string>, gaps: seq<string>, tail: string)
    requires Ends(lead, tail) && |words| == |gaps| + 1
    requires (forall i :: 0 <= i < |words| ==> Word(words[i])) && Gaps(gaps, Foreign)
    requires !HasPrefix(words[0], "-") && !HasSuffix(words[|words| - 1], "-")
    ensures SanitizeName(lead + Spelled(words, gaps) + tail) == Join(Lowered(words), '-')
    ensures SanitizeName(lead + tail) == ""
  {
    hide *;
    var s, t := Spelled(words, gaps), Join(Lowered(words), '-');
    ForeignGaps(gaps);
    LoweredEnds(words);
    SpelledSolid(words, gaps);
    EndsOfName(lead, s, tail);
    EndsOfName(lead, "", tail);
    assert lead + "" + tail == lead + tail;
    RunsSpelled(words, gaps);
    DashedForm(words, gaps);
    TrimIsTrimmed(t, IsHyphen);
  }

  lemma SpelledSolid(words: seq<string>, gaps: seq<string>)
    requires |words| == |gaps| + 1 && (forall i :: 0 <= i < |words| ==> words[i] != "")
    requires Solid(words[0]) && Solid(words[|words| - 1])
    ensures Solid(Spelled(words, gaps)) && Spelled(words, gaps) != ""
    ensures var s := Spelled(words, gaps); s != "" ==> !Foreign(s[0]) && !Foreign(s[|s| - 1])
  {
    hide Foreign, Spelled;
    SpelledEnds(words, gaps);
  }

  lemma DashedForm(words: seq<string>, gaps: seq<string>)
    requires |words| == |gaps| + 1 && Gaps(gaps, Foreign) && forall i :: 0 <= i < |words| ==> Word(words[i])
    requires !HasPrefix(words[0], "-") && !HasSuffix(words[|words| - 1], "-")
    ensures Spelled(Lowered(words), Dashed(gaps)) == Join(Lowered(words), '-')
    ensures Trimmed(Join(Lowered(words), '-'), IsHyphen)
  {
    hide ToLower, Foreign, Word, Join, Spelled, Gaps, HasPrefix, HasSuffix, Dashed, Lowered, Solid;
    ForeignGaps(gaps);
    LoweredEnds(words);
    SingleDashes(Lowered(words), Dashed(gaps));
    SpelledEnds(Lowered(words), Dashed(gaps));
  }

  lemma ForeignGaps(gaps: seq<string>)
    requires Gaps(gaps, Foreign)
    ensures Gaps(gaps, Gap) && forall i :: 0 <= i < |gaps| ==> Dashed(gaps)[i] == "-"
  {
    hide ReplaceRuns, ToLower;
    forall i | 0 <= i < |gaps| ensures All(gaps[i], Gap) && Dashed(gaps)[i] == "-" {
      RunsOfGap(gaps[i]);
    }
  }

  lemma LoweredEnds(words: seq<string>)
    requires words != [] && forall i :: 0 <= i < |words| ==> Word(words[i])
    ensures forall i :: 0 <= i < |words| ==> words[i] != "" && Lowered(words)[i] != ""
    ensures Solid(words[0]) && Solid(words[|words| - 1])
    ensures !HasPrefix(words[0], "-") ==> Lowered(words)[0][0] != '-'
    ensures !HasSuffix(words[|words| - 1], "-") ==> Last(Lowered(words)[|words| - 1]) != '-'
  {
    var first, last := words[0], words[|words| - 1];
    assert Word(first) && Word(last);
    assert first[..1] == [first[0]] && last[|last| - 1..] == [Last(last)];
    assert LowerChar(first[0]) == '-' ==> first[0] == '-';
    assert LowerChar(Last(last)) == '-' ==> Last(last) == '-';
  }

  function Last(s: string): char
    requires s != ""
  {
    s[|s| - 1]
  }

  /** It begins and ends with something that counts. */
  predicate Solid(s: string) {
    s != "" && !Foreign(s[0]) && !Foreign(s[|s| - 1])
  }

  // ----- exposure names -----

  lemma {:induction false} CollapseAppend(a: string, b: string)
    requires a == "" || b == "" || a[|a| - 1] != '-' || b[0] != '-'
    ensures Collapse(a + b) == Collapse(a) + Collapse(b)
  {
    if a == "" {
      assert a + b == b;
    } else if b == "" {
      assert a + b == a;
    } else {
      assert (a + b)[0] == a[0] && (a + b)[1..] == a[1..] + b;
      if |a| > 1 {
        assert a[1..][|a[1..]| - 1] == a[|a| - 1] && (a + b)[1] == a[1];
      } else {
        assert a[1..] == "" && (a + b)[1] == b[0];
      }
      CollapseAppend(a[1..], b);
    }
  }

  lemma {:induction false} CollapseHyphens(s: string)
    requires s != "" && All(s, IsHyphen)
    ensures Collapse(s) == "-"
  {
    if |s| > 1 {
      CollapseHyphens(s[1..]);
    } else {
      assert s[1..] == "";
    }
  }

  lemma {:induction false} CollapseSpelled(words: seq<string>, gaps: seq<string>)
    requires |words| == |gaps| + 1 && Gaps(gaps, IsHyphen)
    requires forall i :: 0 <= i < |words| ==> words[i] != "" && '-' !in words[i]
    ensures Collapse(Spelled(words, gaps)) == Join(words, '-')
  {
    hide Collapse;
    CollapseForm(words[0]);
    if gaps != [] {
      var w, g, rest := words[0], gaps[0], Spelled(words[1..], gaps[1..]);
      assert words[1] != "" && words[1][0] in words[1];
      SpelledEnds(words[1..], gaps[1..]);
      CollapseSpelled(words[1..], gaps[1..]);
      CollapseHyphens(g);
      CollapseAppend(w + g, rest);
      CollapseAppend(w, g);
    }
  }

  /** An exposure's name is the words of letters and digits in what was asked for, with a hyphen between each two:
      case, and what else stands between, before or after them, does not matter. */
  lemma NormalizedNameSpelled(lead: string, words: seq<string>, gaps: seq<string>, tail: string)
    requires Ends(lead, tail) && |words| == |gaps| + 1
    requires (forall i :: 0 <= i < |words| ==> Alphanumeric(words[i])) && Gaps(gaps, Gap)
    ensures NormalizedName(lead + Spelled(words, gaps) + tail) == Join(Lowered(words), '-')
    ensures NormalizedName(lead + tail) == ""
  {
    hide ReplaceRuns, Trim, ToLower, SanitizeName, Collapse, Foreign;
    var s, t := Spelled(words, gaps), Spelled(Lowered(words), Dashed(gaps));
    NoHyphens(words);
    SpelledEnds(words, gaps);
    EndsOfName(lead, s, tail);
    EndsOfName(lead, "", tail);
    assert lead + "" + tail == lead + tail;
    RunsSpelled(words, gaps);
    HyphenGaps(gaps);
    CollapseSpelled(Lowered(words), Dashed(gaps));
    SpelledEnds(Lowered(words), Dashed(gaps));
    TrimIsTrimmed(t, IsHyphen);
    NormalizedForm(lead + s + tail);
    NormalizedForm(lead + tail);
    CollapseForm("");
  }

  lemma NoHyphens(words: seq<string>)
    requires words != [] && forall i :: 0 <= i < |words| ==> Alphanumeric(words[i])
    ensures forall i :: 0 <= i < |words| ==> Word(words[i])
    ensures forall i :: 0 <= i < |words| ==> Lowered(words)[i] != "" && '-' !in Lowered(words)[i]
    ensures Solid(words[0]) && Solid(words[|words| - 1])
    ensures Lowered(words)[0][0] != '-' && Last(Lowered(words)[|words| - 1]) != '-'
  {
    assert Alphanumeric(words[0]) && Alphanumeric(words[|words| - 1]);
    forall i | 0 <= i < |words| ensures '-' !in Lowered(words)[i] {
      forall j | 0 <= j < |words[i]| ensures ToLower(words[i])[j] != '-' {
        assert !Gap(words[i][j]);
      }
    }
  }

  lemma HyphenGaps(gaps: seq<string>)
    requires Gaps(gaps, Gap)
    ensures Gaps(Dashed(gaps), IsHyphen)
  {
    hide ReplaceRuns, ToLower;
    forall i | 0 <= i < |gaps| ensures Dashed(gaps)[i] != "" && All(Dashed(gaps)[i], IsHyphen) {
      RunsOfGap(gaps[i]);
    }
  }

  // ----- numbers -----

  /** What a text of digits counts, the last digit the least. */
  function Value(s: string): int {
    if s == "" then 0 else 10 * Value(s[..|s| - 1]) + (s[|s| - 1] as int - '0' as int)
  }

  /** A port's name is its decimal numeral, without leading zeros. */
  lemma {:induction false} ItoaValue(n: nat)
    ensures Value(Itoa(n)) == n
    ensures n > 0 ==> Itoa(n)[0] != '0'
  {
    ItoaDigits(n);
    if n >= 10 {
      ItoaValue(n / 10);
      ItoaDigits(n / 10);
      var s := Itoa(n);
      assert s[..|s| - 1] == Itoa(n / 10);
    } else {
      assert Itoa(n)[..0] == "";
    }
  }
}
