/** The typo-squat generator: apex splitting, the nine algorithms, the deduplicating driver
    and the alert score that judges what it emits. */
module DomainPermutations {
  import opened Text
  import opened EditDistance

  // ---- Apex splitting --------------------------------------------------------

  datatype SplitResult = Split(sld: string, tld: string) | NoTld | Malformed

  function SplitApex(apex: string): SplitResult {
    SplitName(Lower(Trim(apex)))
  }

  /** `SplitApex` on an already trimmed and lower-cased name. */
  function SplitName(t: string): SplitResult {
    if '.' !in t then NoTld
    else
      var idx := LastIndexOf(t, '.');
      var sld, tld := t[..idx], t[idx + 1..];
      if sld == "" || tld == "" then Malformed
      else if '.' in sld && |tld| == 2 then
        var idx2 := LastIndexOf(sld, '.');
        Split(sld[..idx2], sld[idx2 + 1..] + "." + tld)
      else Split(sld, tld)
  }

  lemma CutAt(t: string, i: nat)
    requires i < |t| && t[i] == '.'
    ensures t == t[..i] + "." + t[i + 1..]
  {
  }

  lemma CutRejected(t: string, idx: nat)
    requires '.' in t && idx == LastIndexOf(t, '.')
    ensures t[..idx] == "" <==> t[0] == '.' && '.' !in t[1..]
    ensures t[idx + 1..] == "" <==> t[|t| - 1] == '.'
  {
    if idx == 0 {
      assert t[1..] == t[idx + 1..];
    } else {
      assert t[1..][idx - 1] == '.';
    }
  }

  lemma CutTwice(t: string, i: nat, k: nat)
    requires k < i < |t| && t[i] == '.' && t[k] == '.'
    ensures t[..i][..k] + "." + (t[..i][k + 1..] + "." + t[i + 1..]) == t
  {
    var left, mid, right := t[..i][..k], t[..i][k + 1..], t[i + 1..];
    CutAt(t, i);
    CutAt(t[..i], k);
    assert left + "." + (mid + "." + right) == (left + "." + mid) + "." + right;
  }

  lemma SplitNameRejoins(t: string)
    ensures SplitName(t).Split? ==>
              SplitName(t).sld + "." + SplitName(t).tld == t && SplitName(t).tld != ""
  {
    hide LastIndexOf;
    if SplitName(t).Split? {
      var idx := LastIndexOf(t, '.');
      CutAt(t, idx);
      if '.' in t[..idx] && |t[idx + 1..]| == 2 { CutTwice(t, idx, LastIndexOf(t[..idx], '.')); }
    }
  }

  /** Splitting loses nothing, and it is rejected exactly when there is no dot, nothing
      before the last dot or nothing after it. */
  lemma SplitApexRejoins(apex: string)
    ensures
      var t := Lower(Trim(apex));
      var r := SplitApex(apex);
      && (r.NoTld? <==> '.' !in t)
      && (r.Malformed? <==> '.' in t && (t[|t| - 1] == '.' || (t[0] == '.' && '.' !in t[1..])))
      && (r.Split? ==> r.sld + "." + r.tld == t && r.tld != "")
  {
    var t := Lower(Trim(apex));
    if '.' in t {
      CutRejected(t, LastIndexOf(t, '.'));
      SplitNameRejoins(t);
    }
  }

  /** Where it splits: the suffix is what follows the last dot, or, when that has two characters and there is
      another dot in front, what follows the dot before. */
  lemma SuffixIs(t: string)
    requires SplitName(t).Split?
    ensures
      var r := SplitName(t);
      if '.' in r.tld then exists mid, cc :: r.tld == mid + "." + cc && '.' !in mid && '.' !in cc && |cc| == 2
      else |r.tld| == 2 ==> '.' !in r.sld
  {
    hide LastIndexOf;
    var idx := LastIndexOf(t, '.');
    var left, cc := t[..idx], t[idx + 1..];
    assert '.' !in cc by { assert forall k :: 0 <= k < |cc| ==> cc[k] == t[idx + 1 + k]; }
    if '.' in left && |cc| == 2 {
      var idx2 := LastIndexOf(left, '.');
      var mid := left[idx2 + 1..];
      assert '.' !in mid by { assert forall k :: 0 <= k < |mid| ==> mid[k] == left[idx2 + 1 + k]; }
      assert SplitName(t).tld == mid + "." + cc && (mid + "." + cc)[|mid|] == '.';
    }
  }

  /** The emptiness test runs before the two-component rule, so a label can still come out
      empty: exactly for a leading dot in front of a two-component suffix. */
  lemma SplitNameEmptyLabel(t: string)
    requires SplitName(t).Split?
    ensures SplitName(t).sld == "" <==>
              exists mid, cc :: t == "." + mid + "." + cc && '.' !in mid && '.' !in cc && |cc| == 2
  {
    if SplitName(t).sld == "" {
      EmptyLabelShape(t);
    }
    if mid, cc :| t == "." + mid + "." + cc && '.' !in mid && '.' !in cc && |cc| == 2 {
      ShapeSplits(mid, cc);
    }
  }

  lemma EmptyLabelShape(t: string)
    requires SplitName(t).Split? && SplitName(t).sld == ""
    ensures exists mid, cc :: t == "." + mid + "." + cc && '.' !in mid && '.' !in cc && |cc| == 2
  {
    hide LastIndexOf;
    var idx := LastIndexOf(t, '.');
    var front, cc := t[..idx], t[idx + 1..];
    CutAt(t, idx);
    assert |cc| == 2 && '.' in front && LastIndexOf(front, '.') == 0;
    assert '.' !in cc by {
      assert forall k :: 0 <= k < |cc| ==> cc[k] == t[idx + 1 + k];
    }
    LeadingDot(front);
    assert t == "." + front[1..] + "." + cc;
  }

  lemma LeadingDot(s: string)
    requires '.' in s && LastIndexOf(s, '.') == 0
    ensures s == "." + s[1..] && '.' !in s[1..]
  {
    hide LastIndexOf;
    assert forall k :: 0 <= k < |s[1..]| ==> s[1..][k] == s[k + 1];
  }

  lemma ShapeSplits(mid: string, cc: string)
    requires '.' !in mid && '.' !in cc && |cc| == 2
    ensures SplitName("." + mid + "." + cc) == Split("", mid + "." + cc)
  {
    var t := "." + mid + "." + cc;
    LastIndexOfSplit("." + mid, '.', cc);
    assert ("." + mid) + ['.'] + cc == t;
    assert t[..|mid| + 1] == "." + mid && t[|mid| + 2..] == cc;
    LastIndexOfSplit("", '.', mid);
    assert "" + ['.'] + mid == "." + mid;
    assert ("." + mid)[0] == '.';
    assert ("." + mid)[..0] == "" && ("." + mid)[1..] == mid;
  }

  // ---- Tables -------------------------------------------------------------------

  function QwertyAdjacent(c: char): string {
    match c
    case 'a' => "qwsz" case 'b' => "vghn" case 'c' => "xdfv" case 'd' => "serfcx" case 'e' => "wsdr"
    case 'f' => "drtgvc" case 'g' => "ftyhbv" case 'h' => "gyujnb" case 'i' => "ujko" case 'j' => "huikmn"
    case 'k' => "jiolm" case 'l' => "kop" case 'm' => "njk" case 'n' => "bhjm" case 'o' => "iklp"
    case 'p' => "ol" case 'q' => "wa" case 'r' => "edft" case 's' => "awedxz" case 't' => "rfgy"
    case 'u' => "yhji" case 'v' => "cfgb" case 'w' => "qase" case 'x' => "zsdc" case 'y' => "tghu"
    case 'z' => "asx"
    case _ => ""
  }

  function Homoglyphs(c: char): seq<string> {
    match c
    case 'a' => ["4", "@"] case 'b' => ["8"] case 'e' => ["3"] case 'g' => ["9"] case 'i' => ["1", "l"]
    case 'l' => ["1", "i"] case 'o' => ["0"] case 's' => ["5", "$"] case 't' => ["7"] case 'z' => ["2"]
    case 'm' => ["rn"] case 'w' => ["vv"] case 'n' => ["m"] case 'u' => ["v"]
    case _ => []
  }

  const VOWELS: string := "aeiou"
  const PREFIXES: seq<string> := ["www", "secure", "login", "account", "support", "mail"]

  predicate IsHostChar(c: char) {
    'a' <= c <= 'z' || '0' <= c <= '9' || c == '-'
  }

  predicate IsHostName(s: string) {
    s != "" && forall i :: 0 <= i < |s| ==> IsHostChar(s[i])
  }

  /** Flip one bit of a single-byte character. Bit 7 leaves ASCII, and so does every flip
      inside a multi-byte character, for which the character is kept: either way the
      candidate is rejected. */
  function Flip(c: char, bit: nat): char
    requires bit < 8
  {
    var power := [1, 2, 4, 8, 16, 32, 64, 128][bit];
    if c as int >= 128 then c
    else if c as int / power % 2 == 1 && power <= c as int then (c as int - power) as char
    else (c as int + power) as char
  }

  // ---- What each algorithm lists ---------------------------------------------

  datatype Algorithm =
    | Bitsquat | Homoglyph | Insertion | Omission | Substitution
    | Transposition | VowelSwap | Hyphenation | Subdomain

  const ALGORITHMS: seq<Algorithm> :=
    [Bitsquat, Homoglyph, Insertion, Omission, Substitution, Transposition, VowelSwap, Hyphenation, Subdomain]

  function Spliced(sld: string, i: nat, middle: string): string
    requires i < |sld|
  {
    sld[..i] + middle + sld[i + 1..]
  }

  /** Number of alternatives an algorithm looks at for position `i`. */
  function Choices(alg: Algorithm, sld: string, i: nat): nat
    requires i < |sld|
  {
    match alg
    case Bitsquat => 8
    case Homoglyph => |Homoglyphs(sld[i])|
    case Insertion => |QwertyAdjacent(sld[i])|
    case Substitution => |QwertyAdjacent(sld[i])|
    case VowelSwap => |VOWELS|
    case Omission => 1
    case Transposition => 1
    case Hyphenation => 1
    case Subdomain => 0
  }

  /** The variants pushed for alternative `k` at position `i`. */
  function VariantsAt(alg: Algorithm, sld: string, i: nat, k: nat): seq<string>
    requires i < |sld| && k < Choices(alg, sld, i)
  {
    match alg
    case Bitsquat =>
      var cand := Spliced(sld, i, [Flip(sld[i], k)]);
      if IsHostName(cand) && cand != sld then [cand] else []
    case Homoglyph => [Spliced(sld, i, Homoglyphs(sld[i])[k])]
    case Insertion =>
      var key := QwertyAdjacent(sld[i])[k];
      [sld[..i] + [key] + sld[i..], sld[..i + 1] + [key] + sld[i + 1..]]
    case Omission => if |sld| <= 2 then [] else [Spliced(sld, i, "")]
    case Substitution => [Spliced(sld, i, [QwertyAdjacent(sld[i])[k]])]
    case Transposition =>
      if i + 1 == |sld| then []
      else
        var swapped := sld[..i] + [sld[i + 1], sld[i]] + sld[i + 2..];
        if swapped != sld then [swapped] else []
    case VowelSwap =>
      if sld[i] !in VOWELS || VOWELS[k] == sld[i] then [] else [Spliced(sld, i, [VOWELS[k]])]
    case Hyphenation =>
      if i == 0 || sld[i] == '-' || sld[i - 1] == '-' then [] else [sld[..i] + "-" + sld[i..]]
  }

  /** Variants of the first `n` alternatives at position `i`. */
  function VariantsOf(alg: Algorithm, sld: string, i: nat, n: nat): seq<string>
    requires i < |sld| && n <= Choices(alg, sld, i)
  {
    if n == 0 then [] else VariantsOf(alg, sld, i, n - 1) + VariantsAt(alg, sld, i, n - 1)
  }

  /** Variants of the first `n` positions. */
  function VariantsUpTo(alg: Algorithm, sld: string, n: nat): seq<string>
    requires n <= |sld|
  {
    if n == 0 then []
    else VariantsUpTo(alg, sld, n - 1) + VariantsOf(alg, sld, n - 1, Choices(alg, sld, n - 1))
  }

  function Prefixed(sld: string, n: nat): seq<string>
    requires n <= |PREFIXES|
  {
    if n == 0 then [] else Prefixed(sld, n - 1) + [PREFIXES[n - 1] + "." + sld]
  }

  function Variants(alg: Algorithm, sld: string): seq<string> {
    if alg == Subdomain then Prefixed(sld, |PREFIXES|) else VariantsUpTo(alg, sld, |sld|)
  }

  // ---- The generators --------------------------------------------------------------

  method GenerateBitsquat(sld: string) returns (out: seq<string>)
    ensures out == Variants(Bitsquat, sld)
  {
    hide Flip, IsHostName, VariantsUpTo, VariantsOf, VariantsAt, Choices;
    NoVariants(Bitsquat, sld);
    out := [];
    for i := 0 to |sld|
      invariant out == VariantsUpTo(Bitsquat, sld, i)
    {
      BitsquatAt(sld, i, 0);
      NextPosition(Bitsquat, sld, i);
      for bit := 0 to 8
        invariant out == VariantsUpTo(Bitsquat, sld, i) + VariantsOf(Bitsquat, sld, i, bit)
      {
        BitsquatAt(sld, i, bit);
        NextAlternative(Bitsquat, sld, i, bit);
        var cand := sld[..i] + [Flip(sld[i], bit)] + sld[i + 1..];
        if IsHostName(cand) && cand != sld { out := out + [cand]; }
      }
    }
  }

  lemma NoVariants(alg: Algorithm, sld: string)
    ensures VariantsUpTo(alg, sld, 0) == []
    ensures alg != Subdomain ==> Variants(alg, sld) == VariantsUpTo(alg, sld, |sld|)
  {
  }

  lemma NextAlternative(alg: Algorithm, sld: string, i: nat, k: nat)
    requires i < |sld| && k < Choices(alg, sld, i)
    ensures VariantsOf(alg, sld, i, k + 1) == VariantsOf(alg, sld, i, k) + VariantsAt(alg, sld, i, k)
  {
    hide VariantsAt, Choices;
  }

  lemma NextPosition(alg: Algorithm, sld: string, i: nat)
    requires i < |sld|
    ensures VariantsUpTo(alg, sld, i + 1) == VariantsUpTo(alg, sld, i) + VariantsOf(alg, sld, i, Choices(alg, sld, i))
    ensures VariantsOf(alg, sld, i, 0) == []
  {
    hide VariantsAt, Choices;
  }

  lemma BitsquatAt(sld: string, i: nat, bit: nat)
    requires i < |sld| && bit < 8
    ensures Choices(Bitsquat, sld, i) == 8
    ensures
      var cand := sld[..i] + [Flip(sld[i], bit)] + sld[i + 1..];
      VariantsAt(Bitsquat, sld, i, bit) == if IsHostName(cand) && cand != sld then [cand] else []
  {
    hide Flip, IsHostName;
  }

  method GenerateHomoglyph(sld: string) returns (out: seq<string>)
    ensures out == Variants(Homoglyph, sld)
  {
    hide Flip;
    hide IsHostName;
    hide QwertyAdjacent;
    hide Homoglyphs;
    out := [];
    for i := 0 to |sld|
      invariant out == VariantsUpTo(Homoglyph, sld, i)
    {
      var subs := Homoglyphs(sld[i]);
      for k := 0 to |subs|
        invariant out == VariantsUpTo(Homoglyph, sld, i) + VariantsOf(Homoglyph, sld, i, k)
      {
        out := out + [sld[..i] + subs[k] + sld[i + 1..]];
      }
    }
  }

  method GenerateInsertion(sld: string) returns (out: seq<string>)
    ensures out == Variants(Insertion, sld)
  {
    hide Flip;
    hide IsHostName;
    hide QwertyAdjacent;
    hide Homoglyphs;
    hide VariantsUpTo, VariantsOf;
    NoVariants(Insertion, sld);
    out := [];
    for i := 0 to |sld|
      invariant out == VariantsUpTo(Insertion, sld, i)
    {
      NextPosition(Insertion, sld, i);
      var adj := QwertyAdjacent(sld[i]);
      for k := 0 to |adj|
        invariant out == VariantsUpTo(Insertion, sld, i) + VariantsOf(Insertion, sld, i, k)
      {
        NextAlternative(Insertion, sld, i, k);
        ghost var before := out;
        out := out + [sld[..i] + [adj[k]] + sld[i..]];
        out := out + [sld[..i + 1] + [adj[k]] + sld[i + 1..]];
        assert out == before + VariantsAt(Insertion, sld, i, k);
      }
    }
  }

  lemma {:induction false} ShortLabelVariants(alg: Algorithm, sld: string, n: nat)
    requires n <= |sld|
    requires (alg == Omission && |sld| <= 2) || (alg == Hyphenation && |sld| <= 1)
    ensures VariantsUpTo(alg, sld, n) == []
  {
    if n > 0 {
      ShortLabelVariants(alg, sld, n - 1);
      OneChoice(alg, sld, n - 1);
    }
  }

  method GenerateOmission(sld: string) returns (out: seq<string>)
    ensures out == Variants(Omission, sld)
  {
    hide Flip;
    hide IsHostName;
    hide QwertyAdjacent;
    hide Homoglyphs;
    if |sld| <= 2 {
      ShortLabelVariants(Omission, sld, |sld|);
      return [];
    }
    out := [];
    for i := 0 to |sld|
      invariant out == VariantsUpTo(Omission, sld, i)
    {
      out := out + [sld[..i] + sld[i + 1..]];
      assert sld[..i] + sld[i + 1..] == Spliced(sld, i, "");
      OneChoice(Omission, sld, i);
    }
  }

  method GenerateSubstitution(sld: string) returns (out: seq<string>)
    ensures out == Variants(Substitution, sld)
  {
    hide Flip;
    hide IsHostName;
    hide QwertyAdjacent;
    hide Homoglyphs;
    out := [];
    for i := 0 to |sld|
      invariant out == VariantsUpTo(Substitution, sld, i)
    {
      var adj := QwertyAdjacent(sld[i]);
      for k := 0 to |adj|
        invariant out == VariantsUpTo(Substitution, sld, i) + VariantsOf(Substitution, sld, i, k)
      {
        out := out + [sld[..i] + [adj[k]] + sld[i + 1..]];
      }
    }
  }

  method GenerateTransposition(sld: string) returns (out: seq<string>)
    ensures out == Variants(Transposition, sld)
  {
    hide Flip;
    hide IsHostName;
    hide QwertyAdjacent;
    hide Homoglyphs;
    out := [];
    if sld == "" { return; }
    for i := 0 to |sld| - 1
      invariant out == VariantsUpTo(Transposition, sld, i)
    {
      var swapped := sld[..i] + [sld[i + 1], sld[i]] + sld[i + 2..];
      OneChoice(Transposition, sld, i);
      if swapped != sld { out := out + [swapped]; }
    }
    OneChoice(Transposition, sld, |sld| - 1);
  }

  /** An algorithm with a single alternative per position. */
  lemma OneChoice(alg: Algorithm, sld: string, i: nat)
    requires i < |sld| && Choices(alg, sld, i) == 1
    ensures VariantsUpTo(alg, sld, i + 1) == VariantsUpTo(alg, sld, i) + VariantsAt(alg, sld, i, 0)
  {
    assert VariantsOf(alg, sld, i, 1) == VariantsOf(alg, sld, i, 0) + VariantsAt(alg, sld, i, 0);
  }

  method GenerateVowelSwap(sld: string) returns (out: seq<string>)
    ensures out == Variants(VowelSwap, sld)
  {
    hide VariantsAt;
    out := [];
    for i := 0 to |sld|
      invariant out == VariantsUpTo(VowelSwap, sld, i)
    {
      var ch := sld[i];
      if ch in VOWELS {
        for k := 0 to |VOWELS|
          invariant out == VariantsUpTo(VowelSwap, sld, i) + VariantsOf(VowelSwap, sld, i, k)
        {
          VowelStep(sld, i, k);
          if VOWELS[k] != ch { out := out + [sld[..i] + [VOWELS[k]] + sld[i + 1..]]; }
        }
      } else {
        NoVowelNoSwap(sld, i, |VOWELS|);
      }
    }
  }

  lemma VowelStep(sld: string, i: nat, k: nat)
    requires i < |sld| && sld[i] in VOWELS && k < |VOWELS|
    ensures VariantsOf(VowelSwap, sld, i, k + 1) ==
              VariantsOf(VowelSwap, sld, i, k)
              + (if VOWELS[k] != sld[i] then [sld[..i] + [VOWELS[k]] + sld[i + 1..]] else [])
  {
    hide Flip;
    hide IsHostName;
    hide QwertyAdjacent;
    hide Homoglyphs;
  }

  lemma {:induction false} NoVowelNoSwap(sld: string, i: nat, n: nat)
    requires i < |sld| && sld[i] !in VOWELS && n <= |VOWELS|
    ensures VariantsOf(VowelSwap, sld, i, n) == []
  {
    if n > 0 { NoVowelNoSwap(sld, i, n - 1); }
  }

  method GenerateHyphenation(sld: string) returns (out: seq<string>)
    ensures out == Variants(Hyphenation, sld)
  {
    hide Flip;
    hide IsHostName;
    hide QwertyAdjacent;
    hide Homoglyphs;
    if |sld| <= 1 {
      ShortLabelVariants(Hyphenation, sld, |sld|);
      return [];
    }
    out := [];
    OneChoice(Hyphenation, sld, 0);
    for i := 1 to |sld|
      invariant out == VariantsUpTo(Hyphenation, sld, i)
    {
      OneChoice(Hyphenation, sld, i);
      if sld[i] == '-' || sld[i - 1] == '-' { continue; }
      out := out + [sld[..i] + "-" + sld[i..]];
    }
  }

  method GenerateSubdomain(sld: string) returns (out: seq<string>)
    ensures out == Variants(Subdomain, sld)
  {
    out := [];
    for k := 0 to |PREFIXES|
      invariant out == Prefixed(sld, k)
    {
      out := out + [PREFIXES[k] + "." + sld];
    }
  }

  method Generate(alg: Algorithm, sld: string) returns (out: seq<string>)
    ensures out == Variants(alg, sld)
  {
    match alg
    case Bitsquat => out := GenerateBitsquat(sld);
    case Homoglyph => out := GenerateHomoglyph(sld);
    case Insertion => out := GenerateInsertion(sld);
    case Omission => out := GenerateOmission(sld);
    case Substitution => out := GenerateSubstitution(sld);
    case Transposition => out := GenerateTransposition(sld);
    case VowelSwap => out := GenerateVowelSwap(sld);
    case Hyphenation => out := GenerateHyphenation(sld);
    case Subdomain => out := GenerateSubdomain(sld);
  }

  // ---- How far a variant strays --------------------------------------------------

  /** How many characters of a text are white space, or are not. */
  function Count(s: string, space: bool): nat {
    if s == "" then 0 else (if IsSpace(s[0]) == space then 1 else 0) + Count(s[1..], space)
  }

  lemma {:induction false} CountConcat(a: string, b: string, space: bool)
    ensures Count(a + b, space) == Count(a, space) + Count(b, space)
    decreases |a|
  {
    if a == "" {
      assert a + b == b;
    } else {
      assert (a + b)[1..] == a[1..] + b;
      CountConcat(a[1..], b, space);
    }
  }

  lemma CountThree(a: string, b: string, c: string, space: bool)
    ensures Count(a + b + c, space) == Count(a, space) + Count(b, space) + Count(c, space)
  {
    hide Count;
    CountConcat(a + b, c, space);
    CountConcat(a, b, space);
  }

  lemma {:induction false} CountUniform(s: string, space: bool)
    requires forall i :: 0 <= i < |s| ==> IsSpace(s[i]) == space
    ensures Count(s, space) == |s| && Count(s, !space) == 0
  {
    if s != "" { CountUniform(s[1..], space); }
  }

  /** `v` differs from the name, is at most one character longer, is at most two edits away, and has no more
      white space. */
  ghost predicate Near(name: string, v: string) {
    && v != name && |v| <= |name| + 1 && Count(v, true) <= Count(name, true)
    && (exists script :: Turns(script, name, v) && |script| <= 2)
  }

  lemma ReplaceByTwo(name: string, i: nat, c: char, d: char)
    requires i < |name|
    ensures Turns([Replace(i, c), Insert(i + 1, d)], name, Spliced(name, i, [c, d]))
  {
    hide Turns;
    var mid := Apply(Replace(i, c), name);
    OneStep(Replace(i, c), name);
    assert Apply(Insert(i + 1, d), mid) == Spliced(name, i, [c, d]);
    AppendEdit([Replace(i, c)], Insert(i + 1, d), name, mid);
    assert [Replace(i, c)] + [Insert(i + 1, d)] == [Replace(i, c), Insert(i + 1, d)];
  }

  lemma SplicedIsNear(name: string, i: nat, middle: string)
    requires i < |name| && |middle| <= 2 && middle != [name[i]]
    requires forall k :: 0 <= k < |middle| ==> !IsSpace(middle[k])
    ensures Near(name, Spliced(name, i, middle))
  {
    hide Turns, Count, IsSpace;
    var v := Spliced(name, i, middle);
    assert name == Spliced(name, i, [name[i]]);
    CountUniform(middle, false);
    CountThree(name[..i], middle, name[i + 1..], true);
    CountThree(name[..i], [name[i]], name[i + 1..], true);
    if |middle| == 0 {
      assert Apply(Delete(i), name) == v;
      OneStep(Delete(i), name);
    } else if |middle| == 1 {
      assert v[i] == middle[0] && middle == [middle[0]];
      assert Apply(Replace(i, middle[0]), name) == v;
      OneStep(Replace(i, middle[0]), name);
    } else {
      ReplaceByTwo(name, i, middle[0], middle[1]);
      assert middle == [middle[0], middle[1]];
    }
  }

  lemma InsertedIsNear(name: string, i: nat, ch: char)
    requires i <= |name| && !IsSpace(ch)
    ensures Near(name, name[..i] + [ch] + name[i..])
  {
    hide Turns, Count, IsSpace;
    OneStep(Insert(i, ch), name);
    CountUniform([ch], false);
    CountThree(name[..i], [ch], name[i..], true);
    CountConcat(name[..i], name[i..], true);
    assert name == name[..i] + name[i..];
  }

  lemma SwappedCount(name: string, i: nat)
    requires i + 1 < |name|
    ensures Count(name[..i] + [name[i + 1], name[i]] + name[i + 2..], true) == Count(name, true)
  {
    hide Count, IsSpace;
    var a, x, y, b := name[..i], [name[i]], [name[i + 1]], name[i + 2..];
    assert name == a + (x + y) + b && [name[i + 1], name[i]] == y + x;
    CountThree(a, x + y, b, true);
    CountThree(a, y + x, b, true);
    CountConcat(x, y, true);
    CountConcat(y, x, true);
  }

  lemma SwappedIsNear(name: string, i: nat)
    requires i + 1 < |name|
    requires name[..i] + [name[i + 1], name[i]] + name[i + 2..] != name
    ensures Near(name, name[..i] + [name[i + 1], name[i]] + name[i + 2..])
  {
    hide Count, IsSpace;
    var v := name[..i] + [name[i + 1], name[i]] + name[i + 2..];
    SwappedCount(name, i);
    var mid := Apply(Replace(i, name[i + 1]), name);
    OneStep(Replace(i, name[i + 1]), name);
    assert Apply(Replace(i + 1, name[i]), mid) == v;
    AppendEdit([Replace(i, name[i + 1])], Replace(i + 1, name[i]), name, mid);
  }

  lemma QwertyFacts(c: char, k: nat)
    requires k < |QwertyAdjacent(c)|
    ensures QwertyAdjacent(c)[k] != c && 'a' <= QwertyAdjacent(c)[k] <= 'z' && !IsSpace(QwertyAdjacent(c)[k])
  {
  }

  lemma HomoglyphFacts(c: char, k: nat)
    requires k < |Homoglyphs(c)|
    ensures Homoglyphs(c)[k] != [c] && 1 <= |Homoglyphs(c)[k]| <= 2 && IsLower(Homoglyphs(c)[k])
    ensures forall n :: 0 <= n < |Homoglyphs(c)[k]| ==> !IsSpace(Homoglyphs(c)[k][n])
  {
  }

  lemma VariantIsNear(alg: Algorithm, sld: string, i: nat, k: nat, v: string)
    requires i < |sld| && k < Choices(alg, sld, i) && v in VariantsAt(alg, sld, i, k)
    ensures Near(sld, v)
    ensures IsLower(sld) ==> IsLower(v)
  {
    hide Near;
    hide QwertyAdjacent;
    hide Homoglyphs;
    hide Flip;
    match alg
    case Bitsquat =>
      assert sld == Spliced(sld, i, [sld[i]]);
      assert IsHostChar(v[i]) && v[i] == Flip(sld[i], k);
      SplicedIsNear(sld, i, [Flip(sld[i], k)]);
    case Homoglyph =>
      HomoglyphFacts(sld[i], k);
      SplicedIsNear(sld, i, Homoglyphs(sld[i])[k]);
    case Insertion =>
      QwertyFacts(sld[i], k);
      InsertedIsNear(sld, i, QwertyAdjacent(sld[i])[k]);
      InsertedIsNear(sld, i + 1, QwertyAdjacent(sld[i])[k]);
    case Omission => SplicedIsNear(sld, i, "");
    case Substitution =>
      QwertyFacts(sld[i], k);
      SplicedIsNear(sld, i, [QwertyAdjacent(sld[i])[k]]);
    case Transposition => SwappedIsNear(sld, i);
    case VowelSwap => SplicedIsNear(sld, i, [VOWELS[k]]);
    case Hyphenation => InsertedIsNear(sld, i, '-');
    case Subdomain =>
  }

  lemma {:induction false} VariantsOfSource(alg: Algorithm, sld: string, i: nat, n: nat, v: string)
    requires i < |sld| && n <= Choices(alg, sld, i) && v in VariantsOf(alg, sld, i, n)
    ensures exists k: nat :: k < n && v in VariantsAt(alg, sld, i, k)
  {
    if v !in VariantsAt(alg, sld, i, n - 1) { VariantsOfSource(alg, sld, i, n - 1, v); }
  }

  lemma {:induction false} VariantsAreNear(alg: Algorithm, sld: string, n: nat, v: string)
    requires n <= |sld| && v in VariantsUpTo(alg, sld, n)
    ensures Near(sld, v)
    ensures IsLower(sld) ==> IsLower(v)
  {
    hide Near;
    hide VariantsAt;
    hide VariantsOf;
    hide Choices;
    if v in VariantsUpTo(alg, sld, n - 1) {
      VariantsAreNear(alg, sld, n - 1, v);
    } else {
      VariantsOfSource(alg, sld, n - 1, Choices(alg, sld, n - 1), v);
      var k: nat :| k < Choices(alg, sld, n - 1) && v in VariantsAt(alg, sld, n - 1, k);
      VariantIsNear(alg, sld, n - 1, k, v);
    }
  }

  lemma {:induction false} PrefixedAreFar(sld: string, n: nat, v: string)
    requires n <= |PREFIXES| && v in Prefixed(sld, n)
    ensures |v| >= |sld| + 4
  {
    if v in Prefixed(sld, n - 1) { PrefixedAreFar(sld, n - 1, v); }
  }

  /** Whatever follows the name, a near variant stays within distance two and never
      becomes the apex. */
  lemma NearWithSuffix(name: string, v: string, suffix: string)
    requires Near(name, v)
    ensures 0 < Distance(name + suffix, v + suffix) <= 2
  {
    var script :| Turns(script, name, v) && |script| <= 2;
    TurnsInFront(script, name, v, suffix);
    DistanceIsMinimalScript(name + suffix, v + suffix);
    DistanceIsMetric(name + suffix, v + suffix, "");
    assert (name + suffix)[..|name|] == name && (v + suffix)[..|v|] == v;
  }

  /** The split is at distance two: an emitted name is within the scorer's threshold of the
      apex exactly when it is not a subdomain look-alike, and it is never the apex. */
  lemma VariantDistance(alg: Algorithm, sld: string, tld: string, v: string)
    requires v in Variants(alg, sld)
    ensures Distance(sld + "." + tld, v + "." + tld) <= 2 <==> alg != Subdomain
    ensures v + "." + tld != sld + "." + tld
  {
    var suffix := "." + tld;
    assert sld + suffix == sld + "." + tld && v + suffix == v + "." + tld;
    DistanceIsMetric(v + suffix, sld + suffix, v + suffix);
    if alg == Subdomain {
      PrefixedAreFar(sld, |PREFIXES|, v);
    } else {
      VariantsAreNear(alg, sld, |sld|, v);
      NearWithSuffix(sld, v, suffix);
    }
  }

  // ---- The driver ------------------------------------------------------------------

  datatype Permutation = Permutation(value: string, algorithm: Algorithm)

  const DEFAULT_CAP: int := 500

  /** `slice(0, cap)`: a negative cap counts from the end. */
  function FirstOf<T>(s: seq<T>, cap: int): seq<T> {
    if cap < 0 then (if |s| + cap < 0 then [] else s[..|s| + cap])
    else if cap < |s| then s[..cap] else s
  }

  /** A cap keeps that many from the front, and a negative one leaves out that many at the end. */
  lemma FirstOfIs<T>(s: seq<T>, cap: int)
    ensures FirstOf(s, cap) <= s
    ensures cap >= 0 ==> |FirstOf(s, cap)| == if cap < |s| then cap else |s|
    ensures cap < 0 ==> |FirstOf(s, cap)| == if |s| + cap >= 0 then |s| + cap else 0
  {
  }

  function Capped(alg: Algorithm, sld: string, cap: int): seq<string> {
    FirstOf(Variants(alg, sld), cap)
  }

  ghost predicate Produces(alg: Algorithm, sld: string, tld: string, cap: int, value: string) {
    exists v :: v in Capped(alg, sld, cap) && value == v + "." + tld
  }

  function Rank(alg: Algorithm): (r: nat)
    ensures r < |ALGORITHMS| && ALGORITHMS[r] == alg
  {
    match alg
    case Bitsquat => 0 case Homoglyph => 1 case Insertion => 2 case Omission => 3 case Substitution => 4
    case Transposition => 5 case VowelSwap => 6 case Hyphenation => 7 case Subdomain => 8
  }

  function Tagged(vs: seq<string>, n: nat, tld: string, alg: Algorithm): (r: seq<Permutation>)
    requires n <= |vs|
    ensures |r| == n
    ensures forall i :: 0 <= i < n ==> r[i] == Permutation(vs[i] + "." + tld, alg)
  {
    if n == 0 then [] else Tagged(vs, n - 1, tld, alg) + [Permutation(vs[n - 1] + "." + tld, alg)]
  }

  /** Everything the first `n` algorithms offer, in order. */
  function Candidates(sld: string, tld: string, cap: int, n: nat): seq<Permutation>
    requires n <= |ALGORITHMS|
  {
    if n == 0 then []
    else
      var vs := Capped(ALGORITHMS[n - 1], sld, cap);
      Candidates(sld, tld, cap, n - 1) + Tagged(vs, |vs|, tld, ALGORITHMS[n - 1])
  }

  predicate Contains(ps: seq<Permutation>, value: string) {
    exists p :: p in ps && p.value == value
  }

  /** Keep each value the first time it appears, and never the apex. */
  function KeepFirst(cands: seq<Permutation>, apex: string): seq<Permutation> {
    if cands == [] then []
    else
      var kept, last := KeepFirst(cands[..|cands| - 1], apex), cands[|cands| - 1];
      if last.value == apex || Contains(kept, last.value) then kept else kept + [last]
  }

  ghost predicate FirstAt(cands: seq<Permutation>, i: nat, p: Permutation) {
    i < |cands| && cands[i] == p && forall j :: 0 <= j < i ==> cands[j].value != p.value
  }

  ghost predicate Distinct(ps: seq<Permutation>) {
    forall i, j :: 0 <= i < j < |ps| ==> ps[i].value != ps[j].value
  }

  lemma {:induction false} KeepFirstExact(cands: seq<Permutation>, apex: string)
    ensures
      var kept := KeepFirst(cands, apex);
      && Distinct(kept)
      && |kept| <= |cands|
      && (forall p :: p in kept ==> p.value != apex && exists i: nat :: FirstAt(cands, i, p))
      && (forall c :: c in cands && c.value != apex ==> Contains(kept, c.value))
  {
    hide KeepFirst;
    if cands == [] {
      NothingToKeep(apex);
    } else {
      var front, last := cands[..|cands| - 1], cands[|cands| - 1];
      assert cands == front + [last];
      KeepFirstExact(front, apex);
      KeepFirstNext(front, last, apex);
      var kept, kept' := KeepFirst(front, apex), KeepFirst(cands, apex);
      ContainsAppend(kept, last);
      forall p | p in kept' ensures exists i: nat :: FirstAt(cands, i, p) {
        if p in kept {
          var i: nat :| FirstAt(front, i, p);
          assert FirstAt(cands, i, p);
        } else {
          NewIsFirst(front, last, apex);
        }
      }
    }
  }

  lemma NothingToKeep(apex: string)
    ensures KeepFirst([], apex) == []
  {
  }

  lemma KeepFirstNext(front: seq<Permutation>, last: Permutation, apex: string)
    ensures
      var kept := KeepFirst(front, apex);
      KeepFirst(front + [last], apex)
      == if last.value == apex || Contains(kept, last.value) then kept else kept + [last]
  {
    assert (front + [last])[..|front|] == front;
  }

  lemma NewIsFirst(front: seq<Permutation>, last: Permutation, apex: string)
    requires last.value != apex && !Contains(KeepFirst(front, apex), last.value)
    requires forall c :: c in front && c.value != apex ==> Contains(KeepFirst(front, apex), c.value)
    ensures FirstAt(front + [last], |front|, last)
  {
    hide KeepFirst;
    forall j | 0 <= j < |front| ensures front[j].value != last.value {
      assert front[j] in front;
    }
  }

  lemma RankOf(n: nat)
    requires n < |ALGORITHMS|
    ensures Rank(ALGORITHMS[n]) == n
  {
  }

  /** In order of algorithm, all of rank below `n`. */
  predicate RanksSorted(cands: seq<Permutation>, n: nat) {
    && (forall i :: 0 <= i < |cands| ==> Rank(cands[i].algorithm) < n)
    && (forall i, j :: 0 <= i < j < |cands| ==> Rank(cands[i].algorithm) <= Rank(cands[j].algorithm))
  }

  lemma SortedAppend(before: seq<Permutation>, block: seq<Permutation>, n: nat)
    requires RanksSorted(before, n)
    requires forall i :: 0 <= i < |block| ==> Rank(block[i].algorithm) == n
    ensures RanksSorted(before + block, n + 1)
  {
    hide Rank;
    var all := before + block;
    forall i, j | 0 <= i < j < |all| ensures Rank(all[i].algorithm) <= Rank(all[j].algorithm) {
      if j >= |before| {
        assert Rank(all[j].algorithm) == n;
        if i >= |before| { assert Rank(all[i].algorithm) == n; }
      }
    }
  }

  function Times(n: nat, cap: int): int {
    if n == 0 then 0 else Times(n - 1, cap) + cap
  }

  lemma {:induction false} TimesIs(n: nat, cap: int)
    ensures Times(n, cap) == n * cap
  {
    if n > 0 {
      TimesIs(n - 1, cap);
      assert (n - 1) * cap + cap == n * cap;
    }
  }

  lemma {:induction false} CandidatesSorted(sld: string, tld: string, cap: int, n: nat)
    requires n <= |ALGORITHMS|
    ensures RanksSorted(Candidates(sld, tld, cap, n), n)
  {
    hide Variants;
    hide Rank;
    hide RanksSorted;
    if n == 0 {
      NothingSorted();
    } else {
      CandidatesSorted(sld, tld, cap, n - 1);
      RankOf(n - 1);
      var vs := Capped(ALGORITHMS[n - 1], sld, cap);
      SortedAppend(Candidates(sld, tld, cap, n - 1), Tagged(vs, |vs|, tld, ALGORITHMS[n - 1]), n - 1);
    }
  }

  lemma {:induction false} CandidatesCapped(sld: string, tld: string, cap: nat, n: nat)
    requires n <= |ALGORITHMS|
    ensures |Candidates(sld, tld, cap, n)| <= Times(n, cap)
  {
    hide Variants;
    if n > 0 { CandidatesCapped(sld, tld, cap, n - 1); }
  }

  lemma NothingSorted()
    ensures RanksSorted([], 0)
  {
  }

  lemma {:induction false} CandidatesSound(sld: string, tld: string, cap: int, n: nat, p: Permutation)
    requires n <= |ALGORITHMS| && p in Candidates(sld, tld, cap, n)
    ensures Produces(p.algorithm, sld, tld, cap, p.value)
  {
    hide Variants;
    hide FirstOf;
    if p in Candidates(sld, tld, cap, n - 1) {
      CandidatesSound(sld, tld, cap, n - 1, p);
    } else {
      var vs := Capped(ALGORITHMS[n - 1], sld, cap);
      var i :| 0 <= i < |vs| && Tagged(vs, |vs|, tld, ALGORITHMS[n - 1])[i] == p;
      assert vs[i] in vs;
    }
  }

  lemma {:induction false} CandidatesComplete(sld: string, tld: string, cap: int, n: nat, p: Permutation)
    requires n <= |ALGORITHMS| && Rank(p.algorithm) < n
    requires Produces(p.algorithm, sld, tld, cap, p.value)
    ensures p in Candidates(sld, tld, cap, n)
  {
    hide Variants;
    hide FirstOf;
    if Rank(p.algorithm) < n - 1 {
      CandidatesComplete(sld, tld, cap, n - 1, p);
    } else {
      var vs := Capped(p.algorithm, sld, cap);
      var v :| v in vs && p.value == v + "." + tld;
      var i :| 0 <= i < |vs| && vs[i] == v;
      assert Tagged(vs, |vs|, tld, p.algorithm)[i] == p;
    }
  }

  /** The promise of the driver: values are distinct and never the apex; they are exactly what
      some algorithm's first `cap` variants give, apex excluded; each is credited to the first
      algorithm that gives it. */
  ghost predicate ExactSet(out: seq<Permutation>, sld: string, tld: string, cap: int, apex: string) {
    && Distinct(out)
    && (forall p :: p in out ==> p.value != apex && Produces(p.algorithm, sld, tld, cap, p.value))
    && (forall p, alg :: p in out && Rank(alg) < Rank(p.algorithm) ==> !Produces(alg, sld, tld, cap, p.value))
    && (forall alg, value :: Produces(alg, sld, tld, cap, value) && value != apex ==> Contains(out, value))
  }

  lemma KeptSetExact(sld: string, tld: string, cap: int, apex: string)
    ensures
      var out := KeepFirst(Candidates(sld, tld, cap, |ALGORITHMS|), apex);
      ExactSet(out, sld, tld, cap, apex) && (cap >= 0 ==> |out| <= 9 * cap)
  {
    hide Produces;
    hide Candidates;
    hide Rank;
    hide KeepFirst;
    var cands := Candidates(sld, tld, cap, |ALGORITHMS|);
    var out := KeepFirst(cands, apex);
    if cap >= 0 {
      TimesIs(|ALGORITHMS|, cap);
      CandidatesCapped(sld, tld, cap, |ALGORITHMS|);
    }
    CandidatesSorted(sld, tld, cap, |ALGORITHMS|);
    KeepFirstExact(cands, apex);
    forall p | p in out ensures Produces(p.algorithm, sld, tld, cap, p.value) {
      var i: nat :| FirstAt(cands, i, p);
      CandidatesSound(sld, tld, cap, |ALGORITHMS|, p);
    }
    forall p, alg | p in out && Rank(alg) < Rank(p.algorithm)
      ensures !Produces(alg, sld, tld, cap, p.value)
    {
      var i: nat :| FirstAt(cands, i, p);
      if Produces(alg, sld, tld, cap, p.value) {
        CandidatesComplete(sld, tld, cap, |ALGORITHMS|, Permutation(p.value, alg));
      }
    }
    forall alg, value | Produces(alg, sld, tld, cap, value) && value != apex
      ensures Contains(out, value)
    {
      CandidatesComplete(sld, tld, cap, |ALGORITHMS|, Permutation(value, alg));
    }
  }

  datatype Generated = Generated(permutations: seq<Permutation>) | Rejected(reason: SplitResult)

  function PermutationsOf(apex: string, cap: int): Generated {
    var split := SplitApex(apex);
    if !split.Split? then Rejected(split)
    else Generated(KeepFirst(Candidates(split.sld, split.tld, cap, |ALGORITHMS|), Lower(apex)))
  }

  /** The inner loop of the driver: add one algorithm's variants to what was kept so far. */
  method AddVariants(variants: seq<string>, tld: string, alg: Algorithm, apex: string,
                     seen: set<string>, out: seq<Permutation>, ghost before: seq<Permutation>)
    returns (seen': set<string>, out': seq<Permutation>)
    requires out == KeepFirst(before, apex)
    requires forall value :: value in seen <==> Contains(out, value)
    ensures out' == KeepFirst(before + Tagged(variants, |variants|, tld, alg), apex)
    ensures forall value :: value in seen' <==> Contains(out', value)
  {
    hide *;
    seen', out' := seen, out;
    NoTags(before, variants, tld, alg);
    for i := 0 to |variants|
      invariant out' == KeepFirst(before + Tagged(variants, i, tld, alg), apex)
      invariant forall value :: value in seen' <==> Contains(out', value)
    {
      var full := variants[i] + "." + tld;
      KeepNext(before, variants, i, tld, alg, apex);
      if full == apex || full in seen' { continue; }
      seen' := seen' + {full};
      ContainsAppend(out', Permutation(full, alg));
      out' := out' + [Permutation(full, alg)];
    }
  }

  method GeneratePermutations(apex: string, maxPerAlgorithm: Option<int>) returns (r: Generated)
    ensures r == PermutationsOf(apex, if maxPerAlgorithm.Some? then maxPerAlgorithm.value else DEFAULT_CAP)
  {
    hide *;
    var cap := if maxPerAlgorithm.Some? then maxPerAlgorithm.value else DEFAULT_CAP;
    PermutationsOfSplit(apex, cap);
    var split := SplitApex(apex);
    if !split.Split? { return Rejected(split); }
    var seen: set<string> := {};
    var out: seq<Permutation> := [];
    NothingKept(Lower(apex), split.sld, split.tld, cap);
    for n := 0 to |ALGORITHMS|
      invariant out == KeepFirst(Candidates(split.sld, split.tld, cap, n), Lower(apex))
      invariant forall value :: value in seen <==> Contains(out, value)
    {
      var variants := Generate(ALGORITHMS[n], split.sld);
      NextBlock(split.sld, split.tld, cap, n);
      seen, out := AddVariants(FirstOf(variants, cap), split.tld, ALGORITHMS[n], Lower(apex), seen, out,
                               Candidates(split.sld, split.tld, cap, n));
    }
    r := Generated(out);
  }

  /** An apex that splits yields exactly the promised set; any other is rejected. */
  lemma PermutationSetExact(apex: string, cap: int)
    ensures
      var split, r := SplitApex(apex), PermutationsOf(apex, cap);
      && (r.Generated? <==> split.Split?)
      && (split.Split? ==>
            && ExactSet(r.permutations, split.sld, split.tld, cap, Lower(apex))
            && (cap >= 0 ==> |r.permutations| <= 9 * cap))
  {
    var split := SplitApex(apex);
    if split.Split? { KeptSetExact(split.sld, split.tld, cap, Lower(apex)); }
  }

  lemma PermutationsOfSplit(apex: string, cap: int)
    ensures !SplitApex(apex).Split? ==> PermutationsOf(apex, cap) == Rejected(SplitApex(apex))
    ensures
      var split := SplitApex(apex);
      split.Split? ==>
        PermutationsOf(apex, cap)
          == Generated(KeepFirst(Candidates(split.sld, split.tld, cap, |ALGORITHMS|), Lower(apex)))
  {
  }

  lemma NothingKept(apex: string, sld: string, tld: string, cap: int)
    ensures KeepFirst(Candidates(sld, tld, cap, 0), apex) == [] && forall value :: !Contains([], value)
  {
  }

  lemma NoTags(before: seq<Permutation>, vs: seq<string>, tld: string, alg: Algorithm)
    ensures before + Tagged(vs, 0, tld, alg) == before
  {
  }

  lemma NextBlock(sld: string, tld: string, cap: int, n: nat)
    requires n < |ALGORITHMS|
    ensures
      var before, vs, alg := Candidates(sld, tld, cap, n), FirstOf(Variants(ALGORITHMS[n], sld), cap), ALGORITHMS[n];
      Candidates(sld, tld, cap, n + 1) == before + Tagged(vs, |vs|, tld, alg)
  {
    hide Variants;
    hide FirstOf;
  }

  lemma KeepNext(before: seq<Permutation>, vs: seq<string>, i: nat, tld: string, alg: Algorithm, apex: string)
    requires i < |vs|
    ensures
      var p := Permutation(vs[i] + "." + tld, alg);
      var kept := KeepFirst(before + Tagged(vs, i, tld, alg), apex);
      KeepFirst(before + Tagged(vs, i + 1, tld, alg), apex) ==
        if p.value == apex || Contains(kept, p.value) then kept else kept + [p]
  {
    var cands := before + Tagged(vs, i, tld, alg);
    var p := Permutation(vs[i] + "." + tld, alg);
    assert before + Tagged(vs, i + 1, tld, alg) == cands + [p];
    assert (cands + [p])[..|cands|] == cands;
  }

  lemma ContainsAppend(ps: seq<Permutation>, p: Permutation)
    ensures forall value :: Contains(ps + [p], value) <==> Contains(ps, value) || value == p.value
  {
    forall value | Contains(ps, value) || value == p.value ensures Contains(ps + [p], value) {
      if value == p.value {
        assert p in ps + [p];
      } else {
        var q :| q in ps && q.value == value;
        assert q in ps + [p];
      }
    }
  }

  // ---- Scoring -----------------------------------------------------------------------

  datatype DnsState = Active | MxOnly | Nx | Error

  const DAY_MS: int := 86_400_000

  /** The part after the last dot, or everything when there is none. */
  function LastComponent(s: string): string {
    s[LastIndexOf(s, '.') + 1..]
  }

  method ScoreAlert(apex: string, permutation: string, dns: DnsState, firstSeen: int, now: int)
    returns (score: nat)
    ensures score == (if dns == Active || dns == MxOnly then 40 else 0)
                     + (if now - firstSeen <= 7 * 24 * 3_600_000 then 20 else 0)
                     + (if LastComponent(Lower(apex)) != ""
                           && LastComponent(Lower(apex)) == LastComponent(Lower(permutation))
                        then 20 else 0)
                     + (if Distance(Lower(apex), Lower(permutation)) <= 2 then 20 else 0)
    ensures score <= 100
  {
    score := 0;
    if dns == Active || dns == MxOnly { score := score + 40; }
    var ageDays := (now - firstSeen) as real / DAY_MS as real;
    assert ageDays * DAY_MS as real == (now - firstSeen) as real;
    if ageDays <= 7.0 { score := score + 20; }
    var apexTld, permTld := LastComponent(Lower(apex)), LastComponent(Lower(permutation));
    if apexTld != "" && apexTld == permTld { score := score + 20; }
    var d := Levenshtein(Lower(apex), Lower(permutation));
    if d <= 2 { score := score + 20; }
    score := if score < 100 then score else 100;
  }

  lemma {:induction false} LastComponentAppend(a: string, b: string)
    requires '.' in b
    ensures LastComponent(a + b) == LastComponent(b)
  {
    var i := LastIndexOf(b, '.');
    LastIndexIs(a + b, '.', |a| + i);
    assert (a + b)[|a| + i + 1..] == b[i + 1..];
  }

  lemma EditCounts(e: Edit, s: string, space: bool)
    requires Applicable(e, s)
    ensures Count(s, space) <= Count(Apply(e, s), space) + 1 && Count(Apply(e, s), space) <= Count(s, space) + 1
  {
    var a, b := s[..e.at], if e.Insert? then s[e.at..] else s[e.at + 1..];
    var x, y := if e.Insert? then "" else [s[e.at]], if e.Delete? then "" else [e.ch];
    assert s == a + x + b && Apply(e, s) == a + y + b;
    CountThree(a, x, b, space);
    CountThree(a, y, b, space);
  }

  lemma {:induction false} ScriptCounts(script: seq<Edit>, s: string, space: bool)
    requires Playable(script, s)
    ensures Count(s, space) <= Count(Play(script, s), space) + |script|
    ensures Count(Play(script, s), space) <= Count(s, space) + |script|
    decreases |script|
  {
    hide Count;
    if script != [] {
      EditCounts(script[0], s, space);
      ScriptCounts(script[1..], Apply(script[0], s), space);
    }
  }

  /** The distance is at least the difference in white space, and in everything else. */
  lemma CountsBoundDistance(a: string, b: string, space: bool)
    ensures Count(a, space) <= Count(b, space) + Distance(a, b)
    ensures Count(b, space) <= Count(a, space) + Distance(a, b)
  {
    hide Count;
    DistanceIsMinimalScript(a, b);
    var script :| Turns(script, a, b) && |script| == Distance(a, b);
    ScriptCounts(script, a, space);
  }

  lemma {:induction false} LowerCount(s: string, space: bool)
    ensures Count(Lower(s), space) == Count(s, space)
  {
    if s != "" {
      assert Lower(s)[1..] == Lower(s[1..]);
      LowerCount(s[1..], space);
    }
  }

  /** The white space around a text counts on top of what is in it. */
  lemma TrimCounts(s: string)
    ensures Count(Lower(s), true) == Count(Lower(Trim(s)), true) + |s| - |Trim(s)|
    ensures Count(Lower(s), false) == Count(Lower(Trim(s)), false)
  {
    hide Count, Trim;
    var l, r := TrimParts(s);
    LowerCount(s, true);
    LowerCount(s, false);
    LowerCount(Trim(s), true);
    LowerCount(Trim(s), false);
    CountThree(l, Trim(s), r, true);
    CountThree(l, Trim(s), r, false);
    CountUniform(l, true);
    CountUniform(r, true);
  }

  /** How an emitted permutation compares with the trimmed apex: never more white space, and four more visible
      characters for a subdomain look-alike. */
  lemma VariantCounts(alg: Algorithm, sld: string, tld: string, v: string)
    requires v in Variants(alg, sld)
    ensures alg != Subdomain ==> Count(v + "." + tld, true) <= Count(sld + "." + tld, true)
    ensures alg == Subdomain ==> Count(v + "." + tld, false) >= Count(sld + "." + tld, false) + 4
  {
    hide Count;
    if alg == Subdomain {
      PrefixedCounts(sld, |PREFIXES|, v);
    } else {
      VariantsAreNear(alg, sld, |sld|, v);
    }
    CountThree(v, ".", tld, alg != Subdomain);
    CountThree(sld, ".", tld, alg != Subdomain);
  }

  lemma {:induction false} PrefixedCounts(sld: string, n: nat, v: string)
    requires n <= |PREFIXES| && v in Prefixed(sld, n)
    ensures Count(v, false) >= Count(sld, false) + 4
  {
    hide Count;
    if v in Prefixed(sld, n - 1) {
      PrefixedCounts(sld, n - 1, v);
    } else {
      CountThree(PREFIXES[n - 1], ".", sld, false);
      CountUniform(PREFIXES[n - 1], false);
      CountUniform(".", false);
    }
  }

  lemma DropOne(a: string, c: char, b: string)
    ensures Distance(a + [c] + b, a + b) <= 1
  {
    hide Distance;
    assert Apply(Delete(|a|), a + [c] + b) == a + b;
    OneEdit(Delete(|a|), a + [c] + b);
  }

  lemma OneBehind(t: string, c: char)
    ensures Distance(Lower(t + [c]), Lower(t)) <= 1
  {
    hide Distance;
    var d := LowerChar(c);
    DropOne(Lower(t), d, "");
    assert Lower(t + [c]) == Lower(t) + [d] + "";
    assert Lower(t) + "" == Lower(t);
  }

  lemma OneInFront(c: char, t: string)
    ensures Distance(Lower([c] + t), Lower(t)) <= 1
  {
    hide Distance;
    var d := LowerChar(c);
    DropOne("", d, Lower(t));
    assert Lower([c] + t) == "" + [d] + Lower(t);
    assert "" + Lower(t) == Lower(t);
  }

  /** A single white-space character around the apex is one edit. */
  lemma OneSpaceAround(s: string)
    requires |s| == |Trim(s)| + 1
    ensures Distance(Lower(s), Lower(Trim(s))) <= 1
  {
    hide *;
    var t := Trim(s);
    var l, r := TrimParts(s);
    if l == "" {
      assert s == t + [r[0]];
      OneBehind(t, r[0]);
    } else {
      assert s == [l[0]] + t;
      OneInFront(l[0], t);
    }
  }

  /** Generator and scorer agree, for every apex that splits. An emitted permutation earns the shared suffix
      credit exactly when the apex does not end in white space (the scorer, unlike the generator, does not
      trim). It earns the distance credit only if its algorithm is not `Subdomain`, and for a trimmed apex exactly
      then. One white-space character around the apex leaves the credit to every variant at distance one; three
      cost it to all. */
  lemma EmittedPermutationCredits(apex: string, cap: int, p: Permutation)
    requires SplitApex(apex).Split? && p in PermutationsOf(apex, cap).permutations
    ensures Lower(p.value) == p.value && apex != "" && LastComponent(Lower(apex)) != ""
    ensures LastComponent(Lower(apex)) == LastComponent(p.value) <==> !IsSpace(apex[|apex| - 1])
    ensures Trim(apex) == apex ==> (Distance(Lower(apex), p.value) <= 2 <==> p.algorithm != Subdomain)
    ensures p.algorithm == Subdomain || |apex| >= |Trim(apex)| + 3 ==> Distance(Lower(apex), p.value) > 2
    ensures |apex| <= |Trim(apex)| + 1 && Distance(Lower(Trim(apex)), p.value) <= 1 ==>
              Distance(Lower(apex), p.value) <= 2
  {
    hide *;
    var split := SplitApex(apex);
    SplitApexRejoins(apex);
    var v := EmittedFrom(apex, cap, p);
    EmittedAroundTheApex(apex, cap, p);
    LowerPieces(apex);
    LowerVariant(p.algorithm, split.sld, v);
    LowerJoin(v, split.tld);
    LastComponentJoin(split.sld, v, split.tld);
    UntrimmedSuffix(apex);
    TrimCounts(apex);
    VariantCounts(p.algorithm, split.sld, split.tld, v);
    CountsBoundDistance(Lower(apex), p.value, p.algorithm != Subdomain);
    if |apex| == |Trim(apex)| + 1 {
      OneSpaceAround(apex);
      DistanceIsMetric(Lower(apex), Lower(Trim(apex)), p.value);
    } else if |apex| <= |Trim(apex)| {
      TrimmedIsSame(apex);
    }
  }

  lemma TrimmedIsSame(apex: string)
    requires |apex| <= |Trim(apex)|
    ensures Trim(apex) == apex
  {
    hide Trim;
    var l, r := TrimParts(apex);
  }

  /** White space behind the apex becomes part of its last component; white space in front does not. */
  lemma UntrimmedSuffix(apex: string)
    requires SplitApex(apex).Split?
    ensures apex != "" && LastComponent(Lower(apex)) != ""
    ensures LastComponent(Lower(apex)) == LastComponent(Lower(Trim(apex))) <==> !IsSpace(apex[|apex| - 1])
  {
    hide *;
    SplitApexRejoins(apex);
    var t := Lower(Trim(apex));
    var l, r := TrimParts(apex);
    LowerConcat(l + Trim(apex), r);
    LowerConcat(l, Trim(apex));
    LowerSpace(r);
    LastComponentOf(t, Lower(r));
    LastComponentAppend(Lower(l), t + Lower(r));
    assert Lower(l) + t + Lower(r) == Lower(l) + (t + Lower(r));
    LastComponentNonEmpty(apex);
    assert t != "" && Trim(apex) != "";
    assert |Lower(r)| == |r|;
  }

  lemma LowerConcat(a: string, b: string)
    ensures Lower(a + b) == Lower(a) + Lower(b)
  {
  }

  lemma LowerSpace(r: string)
    requires AllSpace(r)
    ensures '.' !in Lower(r)
  {
    assert forall i :: 0 <= i < |r| ==> IsSpace(r[i]) && Lower(r)[i] != '.';
  }

  lemma LastComponentOf(t: string, r: string)
    requires '.' in t && '.' !in r
    ensures LastComponent(t + r) == LastComponent(t) + r
  {
    hide LastIndexOf;
    var i := LastIndexOf(t, '.');
    forall k | i < k < |t + r| ensures (t + r)[k] != '.' {
      if k >= |t| { assert (t + r)[k] == r[k - |t|]; }
    }
    LastIndexIs(t + r, '.', i);
    assert (t + r)[i + 1..] == t[i + 1..] + r;
  }

  /** For every apex, trimmed or not: nothing emitted is the trimmed lower-cased apex itself, though the
      driver compares with the untrimmed one, and distance two separates the algorithms. */
  lemma EmittedAroundTheApex(apex: string, cap: int, p: Permutation)
    requires SplitApex(apex).Split? && p in PermutationsOf(apex, cap).permutations
    ensures p.value != Lower(Trim(apex))
    ensures Distance(Lower(Trim(apex)), p.value) <= 2 <==> p.algorithm != Subdomain
  {
    hide *;
    var split := SplitApex(apex);
    SplitApexRejoins(apex);
    var v := EmittedFrom(apex, cap, p);
    VariantDistance(p.algorithm, split.sld, split.tld, v);
  }

  /** The label variant behind an emitted permutation. */
  lemma EmittedFrom(apex: string, cap: int, p: Permutation) returns (v: string)
    requires SplitApex(apex).Split? && p in PermutationsOf(apex, cap).permutations
    ensures v in Variants(p.algorithm, SplitApex(apex).sld) && p.value == v + "." + SplitApex(apex).tld
  {
    var sld, tld := SplitApex(apex).sld, SplitApex(apex).tld;
    hide SplitApex;
    hide KeepFirst;
    hide Variants;
    KeptSetExact(sld, tld, cap, Lower(apex));
    v :| v in Capped(p.algorithm, sld, cap) && p.value == v + "." + tld;
  }

  lemma LowerJoin(v: string, tld: string)
    requires IsLower(v) && IsLower(tld)
    ensures Lower(v + "." + tld) == v + "." + tld
  {
    LowerFacts(v + "." + tld);
  }

  lemma LastComponentJoin(sld: string, v: string, tld: string)
    ensures LastComponent(sld + "." + tld) == LastComponent(v + "." + tld)
  {
    assert sld + "." + tld == sld + ("." + tld) && v + "." + tld == v + ("." + tld);
    LastComponentAppend(sld, "." + tld);
    LastComponentAppend(v, "." + tld);
  }

  lemma LastComponentNonEmpty(apex: string)
    requires SplitApex(apex).Split?
    ensures LastComponent(Lower(Trim(apex))) != ""
  {
  }

  lemma LowerPieces(apex: string)
    requires SplitApex(apex).Split?
    ensures IsLower(SplitApex(apex).sld) && IsLower(SplitApex(apex).tld)
  {
    hide LastIndexOf;
    var t := Lower(Trim(apex));
    LowerFacts(Trim(apex));
    SplitApexRejoins(apex);
    forall c | c in SplitApex(apex).sld ensures LowerChar(c) == c { assert c in t; }
    forall c | c in SplitApex(apex).tld ensures LowerChar(c) == c { assert c in t; }
  }

  lemma LowerVariant(alg: Algorithm, sld: string, v: string)
    requires IsLower(sld) && v in Variants(alg, sld)
    ensures IsLower(v)
  {
    if alg == Subdomain {
      LowerPrefixed(sld, |PREFIXES|, v);
    } else {
      VariantsAreNear(alg, sld, |sld|, v);
    }
  }

  lemma {:induction false} LowerPrefixed(sld: string, n: nat, v: string)
    requires n <= |PREFIXES| && IsLower(sld) && v in Prefixed(sld, n)
    ensures IsLower(v)
  {
    if v in Prefixed(sld, n - 1) { LowerPrefixed(sld, n - 1, v); }
  }
}
