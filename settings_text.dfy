/** The text handling around the settings store: trimming and de-quoting what the store prints,
    removing the `file://` scheme from the wallpaper URI, formatting the background colour as
    `rgb(r,g,b)`, and converting between the brightness slider and the stored opacity. */
module SettingsText {

  /** The ASCII characters Python's `str.strip()` removes. */
  predicate IsSpace(c: char)
  {
    c == ' ' || (9 <= c as int <= 13) || (0x1c <= c as int <= 0x1f)
  }

  /** Leading whitespace removed: a suffix of `s` that does not start with whitespace, and
      everything cut off is whitespace. */
  function TrimStart(s: string): (r: string)
    ensures |r| <= |s| && r == s[|s| - |r|..]
    ensures forall k | 0 <= k < |s| - |r| :: IsSpace(s[k])
    ensures r != [] ==> !IsSpace(r[0])
  {
    if s != [] && IsSpace(s[0]) then TrimStart(s[1..]) else s
  }

  /** Trailing whitespace removed: a prefix of `s` that does not end with whitespace, and
      everything cut off is whitespace. */
  function TrimEnd(s: string): (r: string)
    ensures |r| <= |s| && r == s[..|r|]
    ensures forall k | |r| <= k < |s| :: IsSpace(s[k])
    ensures r != [] ==> !IsSpace(r[|r| - 1])
  {
    if s != [] && IsSpace(s[|s| - 1]) then TrimEnd(s[..|s| - 1]) else s
  }

  /** `r` stands in `s` at index `i`. */
  predicate SliceAt(s: string, r: string, i: int)
  {
    0 <= i && i + |r| <= |s| && s[i..i + |r|] == r
  }

  /** `str.strip()`: a slice of `s` with no whitespace at either end, and only whitespace
      cut off before and after it. */
  function Strip(s: string): (r: string)
    ensures exists i ::
              && SliceAt(s, r, i)
              && (forall k | 0 <= k < i :: IsSpace(s[k]))
              && (forall k | i + |r| <= k < |s| :: IsSpace(s[k]))
    ensures r != [] ==> !IsSpace(r[0]) && !IsSpace(r[|r| - 1])
  {
    var t := TrimStart(s);
    var r := TrimEnd(t);
    TrimmedSlice(s, t, r);
    r
  }

  /** Trimming the end of the trimmed start leaves the slice at `|s| - |t|`, with whitespace
      on each side of it. */
  lemma TrimmedSlice(s: string, t: string, r: string)
    requires |t| <= |s| && t == s[|s| - |t|..] && forall k | 0 <= k < |s| - |t| :: IsSpace(s[k])
    requires |r| <= |t| && r == t[..|r|] && forall k | |r| <= k < |t| :: IsSpace(t[k])
    ensures var i := |s| - |t|;
      && SliceAt(s, r, i)
      && (forall k | 0 <= k < i :: IsSpace(s[k]))
      && (forall k | i + |r| <= k < |s| :: IsSpace(s[k]))
  {
    var i := |s| - |t|;
    assert t[..|r|] == s[i..i + |r|];
    forall k | i + |r| <= k < |s| ensures IsSpace(s[k]) {
      assert s[k] == t[k - i];
    }
  }

  /** `pat` occurs in `s` starting at index `i`. */
  predicate OccursAt(s: string, pat: string, i: int)
  {
    0 <= i && i + |pat| <= |s| && s[i..i + |pat|] == pat
  }

  predicate Contains(s: string, pat: string)
  {
    exists i | 0 <= i <= |s| :: OccursAt(s, pat, i)
  }

  /** `s.replace(pat, "")`: occurrences of `pat` removed left to right, never overlapping. */
  function RemoveAll(s: string, pat: string): string
    requires |pat| > 0
    decreases |s|
  {
    if |s| < |pat| then s
    else if s[..|pat|] == pat then RemoveAll(s[|pat|..], pat)
    else [s[0]] + RemoveAll(s[1..], pat)
  }

  /** A string in which `pat` does not occur is left as it is. */
  lemma {:induction false} RemoveAllAbsent(s: string, pat: string)
    requires |pat| > 0 && !Contains(s, pat)
    ensures RemoveAll(s, pat) == s
    decreases |s|
  {
    if |s| >= |pat| {
      assert !OccursAt(s, pat, 0);
      assert !Contains(s[1..], pat) by {
        forall i | 0 <= i <= |s[1..]| ensures !OccursAt(s[1..], pat, i) {
          assert !OccursAt(s, pat, i + 1);
          if i + |pat| <= |s[1..]| {
            assert s[1..][i..i + |pat|] == s[i + 1..i + 1 + |pat|];
          }
        }
      }
      RemoveAllAbsent(s[1..], pat);
    }
  }

  /** Removing a single character distributes over concatenation. */
  lemma {:induction false} RemoveCharAppend(a: string, b: string, c: char)
    ensures RemoveAll(a + b, [c]) == RemoveAll(a, [c]) + RemoveAll(b, [c])
    decreases |a|
  {
    if a != [] {
      RemoveCharAppend(a[1..], b, c);
      assert (a + b)[1..] == a[1..] + b;
      assert (a + b)[..1] == [a[0]] && a[..1] == [a[0]];
      if a[0] == c {
        assert RemoveAll(a + b, [c]) == RemoveAll(a[1..] + b, [c]);
        assert RemoveAll(a, [c]) == RemoveAll(a[1..], [c]);
      } else {
        assert RemoveAll(a + b, [c]) == [a[0]] + RemoveAll(a[1..] + b, [c]);
        assert RemoveAll(a, [c]) == [a[0]] + RemoveAll(a[1..], [c]);
      }
    } else {
      assert a + b == b;
    }
  }

  /** After removing a single character none of it is left. */
  lemma {:induction false} RemoveCharGone(s: string, c: char)
    ensures c !in RemoveAll(s, [c])
    decreases |s|
  {
    if s != [] {
      RemoveCharGone(s[1..], c);
    }
  }

  /** A string without the character is left as it is. */
  lemma {:induction false} RemoveCharAbsent(s: string, c: char)
    ensures c !in s ==> RemoveAll(s, [c]) == s
    decreases |s|
  {
    if s != [] {
      RemoveCharAbsent(s[1..], c);
    }
  }

  /** Removing a single character commutes with cutting the string at any point. */
  lemma {:induction false} RemoveCharSplit(s: string, c: char)
    ensures forall k | 0 <= k <= |s| :: RemoveAll(s, [c]) == RemoveAll(s[..k], [c]) + RemoveAll(s[k..], [c])
  {
    forall k | 0 <= k <= |s| ensures RemoveAll(s, [c]) == RemoveAll(s[..k], [c]) + RemoveAll(s[k..], [c]) {
      var a, b := s[..k], s[k..];
      assert a + b == s;
      RemoveCharAppend(a, b, c);
    }
  }

  /** `.replace("'", "")`: every character but the quote kept, in order. The result of a
      one-character string is that character or nothing, and cutting the input anywhere cuts
      the result there (`StripQuotes` is `RemoveAll(_, "'")`), so the two laws fix the result. */
  function StripQuotes(s: string): (r: string)
    ensures '\'' !in r
    ensures '\'' !in s ==> r == s
    ensures |s| == 1 ==> r == if s[0] == '\'' then [] else s
    ensures forall k | 0 <= k <= |s| :: r == RemoveAll(s[..k], "'") + RemoveAll(s[k..], "'")
  {
    RemoveCharGone(s, '\'');
    RemoveCharAbsent(s, '\'');
    RemoveCharSplit(s, '\'');
    RemoveAll(s, "'")
  }

  /** How the settings store prints a string value: quoted, followed by a newline (for values
      without quotes or backslashes). */
  function Printed(v: string): string
  {
    "'" + v + "'\n"
  }

  /** The stored picture option as read back at start-up. */
  function StoredValue(raw: string): string
  {
    StripQuotes(Strip(raw))
  }

  /** The wallpaper file path the preview opens, from the printed URI. */
  function WallpaperPath(raw: string): string
  {
    RemoveAll(StripQuotes(Strip(raw)), "file://")
  }

  /** A quoted, newline-terminated value strips back to `"'" + v + "'"`. */
  lemma StripPrinted(v: string)
    ensures Strip(Printed(v)) == "'" + v + "'"
  {
    var p := Printed(v);
    assert TrimStart(p) == p;
    assert p[..|p| - 1] == "'" + v + "'";
    assert TrimEnd(p) == TrimEnd("'" + v + "'");
  }

  /** Removing the quotes around a quote-free string gives the string. */
  lemma UnquoteQuoted(v: string)
    requires '\'' !in v
    ensures StripQuotes("'" + v + "'") == v
  {
    RemoveCharAppend("'" + v, "'", '\'');
    RemoveCharAppend("'", v, '\'');
    RemoveCharAbsent(v, '\'');
    assert RemoveAll("'", "'") == [];
  }

  /** Reading back a stored option value gives the value. */
  lemma StoredValueOfPrinted(v: string)
    requires '\'' !in v
    ensures StoredValue(Printed(v)) == v
  {
    StripPrinted(v);
    UnquoteQuoted(v);
  }

  /** For a `file://` URI whose path has no quote and no further `file://`, the preview
      opens exactly that path. */
  lemma WallpaperPathOfUri(path: string)
    requires '\'' !in path && !Contains(path, "file://")
    ensures WallpaperPath(Printed("file://" + path)) == path
  {
    var u := "file://" + path;
    assert '\'' !in u;
    StripPrinted(u);
    UnquoteQuoted(u);
    assert u[..7] == "file://" && u[7..] == path;
    RemoveAllAbsent(path, "file://");
  }

  // ---- the background colour ----

  /** `int(c * 255)` for a colour channel in [0, 1]: the 8-bit level whose band holds `c`. */
  function Channel(c: real): (b: nat)
    requires 0.0 <= c <= 1.0
    ensures b <= 255
    ensures b as real <= c * 255.0 < b as real + 1.0
  {
    (c * 255.0).Floor
  }

  function DigitChar(d: nat): char
    requires d < 10
  {
    "0123456789"[d]
  }

  predicate IsDigit(c: char)
  {
    '0' <= c <= '9'
  }

  /** Python's `str(n)` / f-string formatting of a non-negative integer. */
  function Decimal(n: nat): (r: string)
    ensures r != [] && forall k | 0 <= k < |r| :: IsDigit(r[k])
    ensures |r| > 1 ==> r[0] != '0'
  {
    if n < 10 then [DigitChar(n)] else Decimal(n / 10) + [DigitChar(n % 10)]
  }

  /** The value of a string of decimal digits. */
  function DecimalValue(s: string): nat
    requires forall k | 0 <= k < |s| :: IsDigit(s[k])
  {
    if s == [] then 0
    else
      assert IsDigit(s[|s| - 1]);
      DecimalValue(s[..|s| - 1]) * 10 + (s[|s| - 1] as int - '0' as int)
  }

  lemma {:induction false} DecimalRoundTrip(n: nat)
    ensures DecimalValue(Decimal(n)) == n
  {
    if n >= 10 {
      DecimalRoundTrip(n / 10);
      var r := Decimal(n);
      assert r[..|r| - 1] == Decimal(n / 10);
    }
  }

  /** The colour setting as written: the text `rgb(`, the three 8-bit levels in decimal
      separated by commas, and `)`. */
  function ColorString(r: real, g: real, b: real): string
    requires 0.0 <= r <= 1.0 && 0.0 <= g <= 1.0 && 0.0 <= b <= 1.0
  {
    "rgb(" + Decimal(Channel(r)) + "," + Decimal(Channel(g)) + "," + Decimal(Channel(b)) + ")"
  }

  /** A comma cannot hide inside a comma-free field, so the first comma splits uniquely. */
  lemma SplitAtComma(a: string, b: string, a': string, b': string)
    requires ',' !in a && ',' !in a'
    requires a + [','] + b == a' + [','] + b'
    ensures a == a' && b == b'
  {
    var s := a + [','] + b;
    assert s[|a|] == ',' && s[|a'|] == ',';
    assert forall k | 0 <= k < |a| :: s[k] == a[k];
    assert forall k | 0 <= k < |a'| :: s[k] == a'[k];
    assert |a| == |a'|;
    assert a == s[..|a|] == a';
    assert b == s[|a| + 1..] == b';
  }

  lemma DigitsHaveNoComma(n: nat)
    ensures ',' !in Decimal(n)
  {
    var d := Decimal(n);
    assert forall k | 0 <= k < |d| :: d[k] != ',' by {
      forall k | 0 <= k < |d| ensures d[k] != ',' {
        assert IsDigit(d[k]);
      }
    }
  }

  /** The three fields of an `rgb(a,b,c)` string with comma-free fields are determined by the
      string. */
  lemma RgbFields(a: string, b: string, c: string, a': string, b': string, c': string)
    requires ',' !in a && ',' !in b && ',' !in a' && ',' !in b'
    requires "rgb(" + a + "," + b + "," + c + ")" == "rgb(" + a' + "," + b' + "," + c' + ")"
    ensures a == a' && b == b' && c == c'
  {
    var s := "rgb(" + a + "," + b + "," + c + ")";
    var s' := "rgb(" + a' + "," + b' + "," + c' + ")";
    assert s[4..] == a + [','] + (b + [','] + (c + ")"));
    assert s'[4..] == a' + [','] + (b' + [','] + (c' + ")"));
    SplitAtComma(a, b + [','] + (c + ")"), a', b' + [','] + (c' + ")"));
    SplitAtComma(b, c + ")", b', c' + ")");
    assert c == (c + ")")[..|c|];
    assert c' == (c' + ")")[..|c'|];
  }

  /** Two colours are written as the same string exactly when their three 8-bit levels agree:
      the string carries the levels without loss. */
  lemma ColorStringInjective(r: real, g: real, b: real, r': real, g': real, b': real)
    requires 0.0 <= r <= 1.0 && 0.0 <= g <= 1.0 && 0.0 <= b <= 1.0
    requires 0.0 <= r' <= 1.0 && 0.0 <= g' <= 1.0 && 0.0 <= b' <= 1.0
    ensures ColorString(r, g, b) == ColorString(r', g', b')
        <==> Channel(r) == Channel(r') && Channel(g) == Channel(g') && Channel(b) == Channel(b')
  {
    if ColorString(r, g, b) == ColorString(r', g', b') {
      DigitsHaveNoComma(Channel(r)); DigitsHaveNoComma(Channel(g));
      DigitsHaveNoComma(Channel(r')); DigitsHaveNoComma(Channel(g'));
      RgbFields(Decimal(Channel(r)), Decimal(Channel(g)), Decimal(Channel(b)),
                Decimal(Channel(r')), Decimal(Channel(g')), Decimal(Channel(b')));
      DecimalRoundTrip(Channel(r)); DecimalRoundTrip(Channel(r'));
      DecimalRoundTrip(Channel(g)); DecimalRoundTrip(Channel(g'));
      DecimalRoundTrip(Channel(b)); DecimalRoundTrip(Channel(b'));
    }
  }

  // ---- brightness ----

  /** The slider value (0..100) divided by 100: the opacity painted and stored. */
  function Opacity(slider: real): (alpha: real)
    ensures alpha * 100.0 == slider
    ensures 0.0 <= slider <= 100.0 ==> 0.0 <= alpha <= 1.0
  {
    slider / 100.0
  }

  /** Loading: the stored opacity times 100, which the slider keeps within its range 0..100. */
  function SliderFromOpacity(opacity: real): (slider: real)
    ensures 0.0 <= slider <= 100.0
    ensures 0.0 <= opacity <= 1.0 ==> slider == opacity * 100.0
    ensures opacity < 0.0 ==> slider == 0.0
    ensures opacity > 1.0 ==> slider == 100.0
  {
    var v := opacity * 100.0;
    if v < 0.0 then 0.0 else if v > 100.0 then 100.0 else v
  }

  /** Saving then loading the brightness gives back the slider value. */
  lemma SliderRoundTrip(slider: real)
    requires 0.0 <= slider <= 100.0
    ensures SliderFromOpacity(Opacity(slider)) == slider
  {
  }

  /** Loading then saving an opacity in range gives back the opacity. */
  lemma OpacityRoundTrip(opacity: real)
    requires 0.0 <= opacity <= 1.0
    ensures Opacity(SliderFromOpacity(opacity)) == opacity
  {
  }
}
