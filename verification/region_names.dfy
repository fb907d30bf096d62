/**
 * Region file names `r.<x>.<z>.mca`: the pattern `^r\.(-?\d+)\.(-?\d+)\.mca$` that
 * WorldRegionFolder.load applies to directory entries, Integer.parseInt on its two groups,
 * and the `.mca` to `.png` renaming CachedRegionFolder uses for image files.
 */
module RegionNames {
  import opened Wrappers
  import opened Regions

  predicate IsDigit(c: char) { '0' <= c <= '9' }

  /** `\d+`: one or more ASCII digits. */
  predicate IsDigits(s: string) { |s| > 0 && forall i :: 0 <= i < |s| ==> IsDigit(s[i]) }

  /** `-?\d+`: an optional minus sign followed by digits. */
  predicate IsSignedDigits(s: string)
  {
    IsDigits(s) || (|s| > 0 && s[0] == '-' && IsDigits(s[1..]))
  }

  function DigitValue(c: char): nat
    requires IsDigit(c)
  {
    c as int - '0' as int
  }

  /** The number a string of digits denotes (leading zeros allowed). */
  function DigitsValue(s: string): nat
    requires forall i :: 0 <= i < |s| ==> IsDigit(s[i])
    decreases |s|
  {
    if s == [] then 0 else 10 * DigitsValue(s[..|s| - 1]) + DigitValue(s[|s| - 1])
  }

  /** The integer `-?\d+` denotes, without any width limit. */
  function SignedValue(s: string): int
    requires IsSignedDigits(s)
  {
    if IsDigits(s) then DigitsValue(s) else -(DigitsValue(s[1..]) as int)
  }

  predicate InInt32(v: int) { -0x8000_0000 <= v < 0x8000_0000 }

  /**
   * Integer.parseInt applied to a group of the pattern: the denoted value, or
   * NumberFormatException when it does not fit in 32 bits.
   */
  function ParseInt(s: string): (r: Result<Int32>)
    requires IsSignedDigits(s)
    ensures r.Ok? <==> InInt32(SignedValue(s))
    ensures r.Ok? ==> r.value == SignedValue(s)
    ensures r.Err? ==> r.error == NumberFormat(s)
  {
    var v := SignedValue(s);
    if InInt32(v) then Ok(v) else Err(NumberFormat(s))
  }

  /** The first index of `c` in `s`. */
  function IndexOf(s: string, c: char): (r: Option<nat>)
    ensures r.None? <==> c !in s
    ensures r.Some? ==> r.value < |s| && s[r.value] == c && c !in s[..r.value]
  {
    if s == [] then None
    else if s[0] == c then Some(0)
    else match IndexOf(s[1..], c)
      case None => None
      case Some(k) => assert s[1..][..k] == s[1..k + 1]; Some(k + 1)
  }

  /**
   * Matcher.matches() of `^r\.(-?\d+)\.(-?\d+)\.mca$` against a file name, with the two groups
   * when it matches. Neither group can contain a dot, so the dot after `r.` that ends the first
   * group is the first dot of the middle part.
   */
  function MatchRegionName(name: string): (r: Option<(string, string)>)
    ensures r.Some? ==>
      && IsSignedDigits(r.value.0) && IsSignedDigits(r.value.1)
      && name == "r." + r.value.0 + "." + r.value.1 + ".mca"
  {
    if |name| < 6 || name[..2] != "r." || name[|name| - 4..] != ".mca" then None
    else
      var middle := name[2..|name| - 4];
      match IndexOf(middle, '.')
      case None => None
      case Some(k) =>
        if IsSignedDigits(middle[..k]) && IsSignedDigits(middle[k + 1..]) then
          SplitRegionName(name, k);
          Some((middle[..k], middle[k + 1..]))
        else None
  }

  /** A name framed by `r.` and `.mca` whose middle part has a dot at `k`, cut at that dot. */
  lemma SplitRegionName(name: string, k: nat)
    requires |name| >= 6 && name[..2] == "r." && name[|name| - 4..] == ".mca"
    requires k < |name| - 6 && name[2 + k] == '.'
    ensures var middle := name[2..|name| - 4];
      name == "r." + middle[..k] + "." + middle[k + 1..] + ".mca"
  {
    var middle := name[2..|name| - 4];
    assert name == name[..2] + middle + name[|name| - 4..];
    assert middle == middle[..k] + [middle[k]] + middle[k + 1..];
  }

  lemma NoDotInSignedDigits(s: string)
    requires IsSignedDigits(s)
    ensures '.' !in s
  {
    if !IsDigits(s) {
      assert s == [s[0]] + s[1..];
    }
  }

  /** A dot-free front part is skipped when searching for the first dot. */
  lemma {:induction false} IndexOfAfter(a: string, b: string)
    requires '.' !in a && |b| > 0 && b[0] == '.'
    ensures IndexOf(a + b, '.') == Some(|a|)
    decreases |a|
  {
    if a == [] {
      assert a + b == b;
    } else {
      assert (a + b)[0] == a[0];
      assert (a + b)[1..] == a[1..] + b;
      IndexOfAfter(a[1..], b);
    }
  }

  /** Every name built from two `-?\d+` groups matches the pattern, with exactly those groups. */
  lemma MatchRegionNameComplete(g1: string, g2: string)
    requires IsSignedDigits(g1) && IsSignedDigits(g2)
    ensures MatchRegionName("r." + g1 + "." + g2 + ".mca") == Some((g1, g2))
  {
    var name := "r." + g1 + "." + g2 + ".mca";
    assert name[..2] == "r.";
    assert name[|name| - 4..] == ".mca";
    var middle := name[2..|name| - 4];
    assert middle == g1 + "." + g2;
    NoDotInSignedDigits(g1);
    IndexOfAfter(g1, "." + g2);
    assert middle == g1 + ("." + g2);
    var k := |g1|;
    assert middle[..k] == g1;
    assert middle[k + 1..] == g2;
  }

  /** How load treats one directory entry name: skipped, taken at a position, or a failure. */
  function ClassifyName(name: string): (r: Result<Option<Coord>>)
    ensures r.Err? ==> MatchRegionName(name).Some?
    ensures MatchRegionName(name).None? ==> r == Ok(None)
  {
    match MatchRegionName(name)
    case None => Ok(None)
    case Some((g1, g2)) =>
      var x :- ParseInt(g1);
      var z :- ParseInt(g2);
      Ok(Some(Coord(x, z)))
  }

  /**
   * A name is taken exactly when it matches the pattern and both groups fit in 32 bits; it is
   * then taken at the position its groups denote, the first group giving x and the second z.
   */
  lemma ClassifyNameSpec(g1: string, g2: string)
    requires IsSignedDigits(g1) && IsSignedDigits(g2)
    ensures var r := ClassifyName("r." + g1 + "." + g2 + ".mca");
      && (r.Ok? <==> InInt32(SignedValue(g1)) && InInt32(SignedValue(g2)))
      && (r.Ok? ==> r.value == Some(Coord(SignedValue(g1), SignedValue(g2))))
      && (!InInt32(SignedValue(g1)) ==> r == Err(NumberFormat(g1)))
  {
    MatchRegionNameComplete(g1, g2);
  }

  /** The decimal digits of a natural number, most significant first. */
  function Decimal(n: nat): (s: string)
    ensures IsDigits(s)
    decreases n
  {
    var d := [('0' as int + n % 10) as char];
    if n < 10 then d else Decimal(n / 10) + d
  }

  lemma {:induction false} DecimalValue(n: nat)
    ensures DigitsValue(Decimal(n)) == n
    decreases n
  {
    if n >= 10 {
      DecimalValue(n / 10);
      var s := Decimal(n);
      assert s[..|s| - 1] == Decimal(n / 10);
    }
  }

  /** Integer.toString: an optional minus sign and the decimal digits of the magnitude. */
  function Show(v: int): (s: string)
    ensures IsSignedDigits(s)
  {
    if v < 0 then "-" + Decimal(-v) else Decimal(v)
  }

  lemma ShowValue(v: int)
    ensures SignedValue(Show(v)) == v
  {
    if v < 0 {
      DecimalValue(-v);
      var s := Show(v);
      assert !IsDigits(s) by { assert !IsDigit(s[0]); }
      assert s[1..] == Decimal(-v);
    } else {
      DecimalValue(v);
    }
  }

  /** The canonical file name of the region at `pos`. */
  function RegionFileName(pos: Coord): string
  {
    "r." + Show(pos.x) + "." + Show(pos.z) + ".mca"
  }

  /** Reading back the canonical file name of any position yields that position. */
  lemma RegionFileNameRoundTrip(pos: Coord)
    ensures ClassifyName(RegionFileName(pos)) == Ok(Some(pos))
  {
    ShowValue(pos.x);
    ShowValue(pos.z);
    ClassifyNameSpec(Show(pos.x), Show(pos.z));
  }

  /** `s` begins with `.mca`. */
  predicate AtMca(s: string)
  {
    |s| >= 4 && s[0] == '.' && s[1] == 'm' && s[2] == 'c' && s[3] == 'a'
  }

  /** String.replace(".mca", ".png"): every non-overlapping occurrence, scanning from the left. */
  function ReplaceMca(s: string): string
    decreases |s|
  {
    if AtMca(s) then ".png" + ReplaceMca(s[4..])
    else if s == [] then []
    else [s[0]] + ReplaceMca(s[1..])
  }

  /** A dot-free front part is copied unchanged. */
  lemma {:induction false} ReplaceMcaSkips(a: string, b: string)
    requires '.' !in a
    ensures ReplaceMca(a + b) == a + ReplaceMca(b)
    decreases |a|
  {
    if a != [] {
      assert (a + b)[0] == a[0] && a[0] != '.';
      assert (a + b)[1..] == a[1..] + b;
      ReplaceMcaSkips(a[1..], b);
      assert ReplaceMca(a + b) == [a[0]] + (a[1..] + ReplaceMca(b));
      assert [a[0]] + a[1..] == a;
    } else {
      assert a + b == b;
    }
  }

  /** A dot that does not begin `.mca` is copied unchanged. */
  lemma DotNotMca(t: string)
    requires !AtMca("." + t)
    ensures ReplaceMca("." + t) == "." + ReplaceMca(t)
  {
    assert ("." + t)[1..] == t;
  }

  /** A dot not followed by `m` is copied unchanged. */
  lemma StepOverDot(t: string)
    requires |t| > 0 && t[0] != 'm'
    ensures ReplaceMca("." + t) == "." + ReplaceMca(t)
  {
    DotNotMca(t);
  }

  /** A replacement keeps the length and the first character (`.png` is as long as `.mca`). */
  lemma {:induction false} ReplaceMcaShape(s: string)
    ensures |ReplaceMca(s)| == |s|
    ensures |s| > 0 ==> ReplaceMca(s)[0] == s[0]
    decreases |s|
  {
    if AtMca(s) {
      ReplaceMcaShape(s[4..]);
    } else if s != [] {
      ReplaceMcaShape(s[1..]);
    }
  }

  /** A dot before a replacement begins `.mca` only where it did before the replacement. */
  lemma ReplacedMcaPrefix(t: string)
    ensures AtMca("." + ReplaceMca(t)) ==> AtMca("." + t)
  {
    var r := ReplaceMca(t);
    ReplaceMcaShape(t);
    if AtMca("." + r) {
      assert r[0] == 'm' && t[0] == 'm';
      assert r == [t[0]] + ReplaceMca(t[1..]);
      var t1 := t[1..];
      ReplaceMcaShape(t1);
      assert t1[0] == ReplaceMca(t1)[0] == r[1] == 'c';
      assert t1[1..] == t[2..];
      assert ReplaceMca(t1) == [t1[0]] + ReplaceMca(t[2..]);
      ReplaceMcaShape(t[2..]);
      assert t[2] == ReplaceMca(t[2..])[0] == r[2] == 'a';
    }
  }

  /** An image name is left as it is: `.png` holds no `.mca`. */
  lemma PngSkips(x: string)
    ensures ReplaceMca(".png" + x) == ".png" + ReplaceMca(x)
  {
    ReplaceMcaSkips("png", x);
    assert ".png" + x == "." + ("png" + x);
    StepOverDot("png" + x);
  }

  /**
   * Replacing twice is replacing once: the output of a replacement holds no
   * `.mca` for a second pass to find.
   */
  lemma {:induction false} ReplaceMcaIdempotent(s: string)
    ensures ReplaceMca(ReplaceMca(s)) == ReplaceMca(s)
    decreases |s|
  {
    if AtMca(s) {
      ReplaceMcaIdempotent(s[4..]);
      PngSkips(ReplaceMca(s[4..]));
    } else if s != [] {
      var t := s[1..];
      ReplaceMcaIdempotent(t);
      assert s == [s[0]] + t;
      if s[0] != '.' {
        ReplaceMcaSkips([s[0]], ReplaceMca(t));
      } else {
        ReplacedMcaPrefix(t);
        DotNotMca(ReplaceMca(t));
      }
    }
  }

  /** Everything before the extension of a region file name is copied unchanged. */
  lemma ReplaceMcaInRegionName(g1: string, g2: string, tail: string)
    requires IsSignedDigits(g1) && IsSignedDigits(g2)
    ensures ReplaceMca("r." + g1 + "." + g2 + tail) == "r." + g1 + "." + g2 + ReplaceMca(tail)
  {
    var rest := "." + (g2 + tail);
    SkipGroup(g2, tail);
    SkipGroup(g1, rest);
    ReplaceMcaSkips("r", "." + (g1 + rest));
    Nested(g1, g2, tail);
    Nested(g1, g2, ReplaceMca(tail));
  }

  /** The region name pieces, grouped from the right. */
  lemma Nested(g1: string, g2: string, tail: string)
    ensures "r." + g1 + "." + g2 + tail == "r" + ("." + (g1 + ("." + (g2 + tail))))
  {
  }

  /** A dot followed by a `-?\d+` group is copied unchanged. */
  lemma SkipGroup(g: string, rest: string)
    requires IsSignedDigits(g)
    ensures ReplaceMca("." + (g + rest)) == "." + (g + ReplaceMca(rest))
  {
    NoDotInSignedDigits(g);
    ReplaceMcaSkips(g, rest);
    assert (g + rest)[0] == g[0];
    StepOverDot(g + rest);
  }

  /** The image name of a region file name: its `.mca` ending becomes `.png`, and an image name stays as it is. */
  lemma ImageNameOfRegionName(g1: string, g2: string)
    requires IsSignedDigits(g1) && IsSignedDigits(g2)
    ensures ReplaceMca("r." + g1 + "." + g2 + ".mca") == "r." + g1 + "." + g2 + ".png"
    ensures ReplaceMca("r." + g1 + "." + g2 + ".png") == "r." + g1 + "." + g2 + ".png"
  {
    ReplaceMcaInRegionName(g1, g2, ".mca");
    ReplaceMcaInRegionName(g1, g2, ".png");
    assert ReplaceMca(".mca") == ".png" by {
      assert AtMca(".mca") && ".mca"[4..] == [];
    }
    assert ReplaceMca(".png") == ".png" by {
      assert ".png"[1..] == "png";
      ReplaceMcaSkips("png", "");
      assert "png" + [] == "png";
    }
  }
}
