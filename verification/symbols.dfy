/** `normalizeToUSDT` (v1.8): turn the text of a market cell into the
    TradingView symbol of its USDT pair. */
module Symbols {
  import opened Text

  /** The characters of the class `/[:/.\-\s]/`. */
  predicate IsSeparator(c: char) {
    c == ':' || c == '/' || c == '.' || c == '-' || IsSpace(c)
  }

  predicate NoSeparator(s: string) {
    forall i :: 0 <= i < |s| ==> !IsSeparator(s[i])
  }

  predicate NoLower(s: string) {
    forall i :: 0 <= i < |s| ==> !IsLower(s[i])
  }

  /** `String(raw).split("\n")[0]`: everything before the first line feed. */
  function FirstLine(s: string): (r: string)
    ensures |r| <= |s| && r == s[..|r|]
    ensures '\n' !in r
    ensures |r| < |s| ==> s[|r|] == '\n'
  {
    if s == [] || s[0] == '\n' then [] else [s[0]] + FirstLine(s[1..])
  }

  /** `sym.replace(/[:/.\-\s]/g, "")`. */
  function RemoveSeparators(s: string): (r: string)
    ensures NoSeparator(r)
    ensures |r| <= |s|
  {
    if s == [] then [] else (if IsSeparator(s[0]) then [] else [s[0]]) + RemoveSeparators(s[1..])
  }

  lemma {:induction false} RemoveSeparatorsKeeps(s: string)
    requires NoSeparator(s)
    ensures RemoveSeparators(s) == s
  {
    if s != [] {
      RemoveSeparatorsKeeps(s[1..]);
    }
  }

  /** `t` is `USDT` in any letter case: what `/USDT/i` accepts. */
  predicate IsUsdt(t: string) {
    && |t| == 4
    && (t[0] == 'U' || t[0] == 'u') && (t[1] == 'S' || t[1] == 's')
    && (t[2] == 'D' || t[2] == 'd') && (t[3] == 'T' || t[3] == 't')
  }

  /** `sym.replace(/USDT$/i, "")`: one trailing `USDT`, in any letter case. */
  function StripUsdtSuffix(s: string): (r: string)
    ensures |r| <= |s| && r == s[..|r|]
    ensures r != s <==> |s| >= 4 && IsUsdt(s[|s| - 4..])
    ensures r != s ==> |r| == |s| - 4
  {
    if |s| >= 4 && IsUsdt(s[|s| - 4..]) then s[..|s| - 4] else s
  }

  /** `sym.replace(/^k(?=[A-Z0-9])/, "")`: a leading lower-case `k` goes only
      when an upper-case letter or a digit follows it. */
  function StripKiloPrefix(s: string): (r: string)
    ensures |r| <= |s| && r == s[|s| - |r|..]
    ensures r != s <==> |s| >= 2 && s[0] == 'k' && (IsUpper(s[1]) || IsDigit(s[1]))
  {
    if |s| >= 2 && s[0] == 'k' && (IsUpper(s[1]) || IsDigit(s[1])) then s[1..] else s
  }

  /** The symbol body before upper-casing. */
  function Core(raw: string): string {
    StripKiloPrefix(StripUsdtSuffix(RemoveSeparators(Trim(FirstLine(raw)))))
  }

  /** `normalizeToUSDT(rawSymbol)`: the empty string for an empty input,
      otherwise the upper-cased core followed by `USDT`. */
  function NormalizeToUSDT(raw: string): (r: string)
    ensures raw == [] <==> r == []
    ensures raw != [] ==> |r| >= 4 && r[|r| - 4..] == "USDT"
    ensures raw != [] ==> NoSeparator(r) && NoLower(r)
  {
    if raw == [] then ""
    else
      var core := Core(raw);
      CoreHasNoSeparator(raw);
      UpperShape(core);
      ToUpper(core) + "USDT"
  }

  lemma CoreHasNoSeparator(raw: string)
    ensures NoSeparator(Core(raw))
  {
    var s := RemoveSeparators(Trim(FirstLine(raw)));
    var u := StripUsdtSuffix(s);
    assert NoSeparator(u) by {
      assert forall i :: 0 <= i < |u| ==> u[i] == s[i];
    }
    var k := StripKiloPrefix(u);
    assert forall i :: 0 <= i < |k| ==> k[i] == u[|u| - |k| + i];
  }

  /** Upper-casing a separator-free string keeps it separator-free and
      leaves no lower-case letter; appending `USDT` keeps both. */
  lemma UpperShape(core: string)
    requires NoSeparator(core)
    ensures NoSeparator(ToUpper(core) + "USDT") && NoLower(ToUpper(core) + "USDT")
    ensures NoSeparator(ToUpper(core)) && NoLower(ToUpper(core))
  {
    var u := ToUpper(core);
    assert forall i :: 0 <= i < |u| ==> !IsSeparator(u[i]) && !IsLower(u[i]) by {
      forall i | 0 <= i < |u|
        ensures !IsSeparator(u[i]) && !IsLower(u[i])
      {
        assert u[i] == UpperChar(core[i]);
        assert !IsSeparator(core[i]);
      }
    }
    var r := u + "USDT";
    forall i | 0 <= i < |r|
      ensures !IsSeparator(r[i]) && !IsLower(r[i])
    {
      if i < |u| {
        assert r[i] == u[i];
      } else {
        assert r[i] in "USDT";
      }
    }
  }

  lemma UsdtShape()
    ensures NoSeparator("USDT") && NoLower("USDT") && IsUsdt("USDT")
  {
  }

  lemma NoSeparatorAppend(a: string, b: string)
    requires NoSeparator(a) && NoSeparator(b)
    ensures NoSeparator(a + b)
  {
    forall i | 0 <= i < |a + b|
      ensures !IsSeparator((a + b)[i])
    {
      if i < |a| {
        assert (a + b)[i] == a[i];
      } else {
        assert (a + b)[i] == b[i - |a|];
      }
    }
  }

  /** A separator-free string has neither white space nor a line feed. */
  lemma SeparatorFreeShape(s: string)
    requires NoSeparator(s)
    ensures NoSpace(s) && '\n' !in s
  {
    assert forall i :: 0 <= i < |s| ==> !IsSeparator(s[i]);
  }

  lemma UpperIdempotent(s: string)
    requires NoLower(s)
    ensures ToUpper(s) == s
  {
  }

  lemma {:induction false} FirstLineWhole(s: string)
    requires '\n' !in s
    ensures FirstLine(s) == s
  {
    if s != [] {
      FirstLineWhole(s[1..]);
    }
  }

  lemma StripUsdtAppended(body: string)
    ensures StripUsdtSuffix(body + "USDT") == body
  {
    var r := body + "USDT";
    assert r[|r| - 4..] == "USDT";
    UsdtShape();
    assert r[..|body|] == body;
  }

  /** The first line of a separator-free string is kept whole by the first
      three rewriting steps. */
  lemma CleanPrefixKept(s: string)
    requires NoSeparator(s)
    ensures RemoveSeparators(Trim(FirstLine(s))) == s
  {
    SeparatorFreeShape(s);
    FirstLineWhole(s);
    TrimNoSpace(s);
    RemoveSeparatorsKeeps(s);
  }

  /** The core of `body + "USDT"` is `body`, for a body that is already
      separator-free and upper-case. */
  lemma CoreOfNormalized(body: string)
    requires NoSeparator(body) && NoLower(body)
    ensures Core(body + "USDT") == body
  {
    UsdtShape();
    NoSeparatorAppend(body, "USDT");
    CleanPrefixKept(body + "USDT");
    StripUsdtAppended(body);
    assert body == [] || !IsLower(body[0]);
  }

  /** Normalising an already normalised symbol changes nothing. */
  lemma NormalizeIdempotent(raw: string)
    ensures NormalizeToUSDT(NormalizeToUSDT(raw)) == NormalizeToUSDT(raw)
  {
    if raw != [] {
      var core := Core(raw);
      CoreHasNoSeparator(raw);
      UpperShape(core);
      var body := ToUpper(core);
      CoreOfNormalized(body);
      UpperIdempotent(body);
    }
  }

  /** A symbol without separators and without a trailing `USDT` keeps its
      characters, upper-cased, loses a thousand-unit `k` prefix, and gains
      the suffix: `kBONK` gives `BONKUSDT`, `kbonk` gives `KBONKUSDT`. */
  lemma NormalizePlain(raw: string)
    requires raw != [] && NoSeparator(raw)
    requires |raw| < 4 || !IsUsdt(raw[|raw| - 4..])
    ensures NormalizeToUSDT(raw) == ToUpper(StripKiloPrefix(raw)) + "USDT"
  {
    CleanPrefixKept(raw);
  }

  /** A pair written `BASE/USDT` (or with `:`, `.`, `-` or white space
      between the halves) normalises like its base alone: `HYPE/USDT`
      gives `HYPEUSDT`. */
  lemma NormalizePair(base: string, sep: char)
    requires base != [] && NoSeparator(base) && IsSeparator(sep) && sep != '\n'
    requires |base| < 4 || !IsUsdt(base[|base| - 4..])
    ensures NormalizeToUSDT(base + [sep] + "USDT") == NormalizeToUSDT(base)
  {
    var raw := base + [sep] + "USDT";
    SeparatorFreeShape(base);
    UsdtShape();
    SeparatorFreeShape("USDT");
    assert '\n' !in raw;
    FirstLineWhole(raw);
    var t := Trim(raw);
    assert RemoveSeparators(raw) == base + "USDT" by {
      RemoveSeparatorsAppend(base + [sep], "USDT");
      RemoveSeparatorsAppend(base, [sep]);
      RemoveSeparatorsKeeps(base);
      RemoveSeparatorsKeeps("USDT");
      assert RemoveSeparators([sep]) == [];
    }
    TrimKeepsSeparatorsOut(raw);
    StripUsdtAppended(base);
    NormalizePlain(base);
  }

  /** Removing separators is a homomorphism of concatenation. */
  lemma {:induction false} RemoveSeparatorsAppend(a: string, b: string)
    ensures RemoveSeparators(a + b) == RemoveSeparators(a) + RemoveSeparators(b)
  {
    if a == [] {
      assert a + b == b;
    } else {
      assert (a + b)[1..] == a[1..] + b;
      RemoveSeparatorsAppend(a[1..], b);
    }
  }

  /** Trimming before removing separators makes no difference: trimming
      only cuts white space, which is a separator. */
  lemma TrimKeepsSeparatorsOut(s: string)
    ensures RemoveSeparators(Trim(s)) == RemoveSeparators(s)
  {
    TrimStartKeeps(s);
    TrimEndKeeps(TrimStart(s));
  }

  lemma TrimStartKeeps(s: string)
    ensures RemoveSeparators(TrimStart(s)) == RemoveSeparators(s)
  {
    var a := TrimStart(s);
    var lead := s[..|s| - |a|];
    assert s == lead + a;
    forall i | 0 <= i < |lead|
      ensures IsSpace(lead[i])
    {
      assert lead[i] == s[i];
    }
    SpacesVanish(lead);
    RemoveSeparatorsAppend(lead, a);
  }

  lemma TrimEndKeeps(a: string)
    ensures RemoveSeparators(TrimEnd(a)) == RemoveSeparators(a)
  {
    var b := TrimEnd(a);
    var trail := a[|b|..];
    assert a == b + trail;
    forall i | 0 <= i < |trail|
      ensures IsSpace(trail[i])
    {
      assert trail[i] == a[|b| + i];
    }
    SpacesVanish(trail);
    RemoveSeparatorsAppend(b, trail);
  }

  lemma {:induction false} SpacesVanish(s: string)
    requires forall i :: 0 <= i < |s| ==> IsSpace(s[i])
    ensures RemoveSeparators(s) == []
  {
    if s != [] {
      SpacesVanish(s[1..]);
    }
  }

  /** The market cell holds the symbol on its first line and the side and
      leverage below it; only the first line matters. */
  lemma NormalizeCell(symbolLine: string, rest: string)
    requires symbolLine != [] && '\n' !in symbolLine
    ensures NormalizeToUSDT(symbolLine + "\n" + rest) == NormalizeToUSDT(symbolLine)
  {
    FirstLineWhole(symbolLine);
    FirstLineStops(symbolLine, rest);
  }

  lemma {:induction false} FirstLineStops(a: string, rest: string)
    requires '\n' !in a
    ensures FirstLine(a + "\n" + rest) == a
  {
    if a == [] {
      assert a + "\n" + rest == "\n" + rest;
    } else {
      assert (a + "\n" + rest)[1..] == a[1..] + "\n" + rest;
      FirstLineStops(a[1..], rest);
    }
  }
}
