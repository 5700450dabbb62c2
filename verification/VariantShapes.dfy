/** What the variants of each algorithm look like, told from the two strings, the keyboard and the binary digits
    of the characters: exactly these are listed. */
module VariantShapes {
  import opened Text
  import opened DomainPermutations

  // ---- One bit ------------------------------------------------------------------------------

  /** In how many binary digits two numbers differ. */
  function BitsApart(m: nat, n: nat): nat {
    if m == 0 && n == 0 then 0 else (if m % 2 == n % 2 then 0 else 1) + BitsApart(m / 2, n / 2)
  }

  function Toggle(n: nat, k: nat): nat {
    if k == 0 then (if n % 2 == 1 then n - 1 else n + 1) else 2 * Toggle(n / 2, k - 1) + n % 2
  }

  lemma {:induction false} SameBits(m: nat, n: nat)
    ensures BitsApart(m, n) == 0 <==> m == n
    decreases m + n
  {
    if m + n > 0 { SameBits(m / 2, n / 2); }
  }

  lemma {:induction false} OneBitIsToggled(m: nat, n: nat) returns (k: nat)
    requires BitsApart(m, n) == 1
    ensures Toggle(m, k) == n
    decreases m + n
  {
    if m % 2 == n % 2 {
      k := OneBitIsToggled(m / 2, n / 2);
      k := k + 1;
    } else {
      SameBits(m / 2, n / 2);
      k := 0;
    }
  }

  lemma ToggleOnce(m: nat, k: nat)
    ensures
      var n := Toggle(m, k);
      if k == 0 then n % 2 != m % 2 && n / 2 == m / 2 else n % 2 == m % 2 && n / 2 == Toggle(m / 2, k - 1)
  {
  }

  lemma BitsOnce(m: nat, n: nat)
    ensures m % 2 != n % 2 ==> BitsApart(m, n) == 1 + BitsApart(m / 2, n / 2)
    ensures m % 2 == n % 2 ==> BitsApart(m, n) == BitsApart(m / 2, n / 2)
  {
  }

  lemma {:induction false} ToggledIsOneBit(m: nat, k: nat)
    ensures BitsApart(m, Toggle(m, k)) == 1
    decreases k
  {
    hide BitsApart, Toggle;
    var n := Toggle(m, k);
    ToggleOnce(m, k);
    BitsOnce(m, n);
    if k == 0 {
      SameBits(m / 2, n / 2);
    } else {
      ToggledIsOneBit(m / 2, k - 1);
    }
  }

  function Power(k: nat): nat {
    if k == 0 then 1 else 2 * Power(k - 1)
  }

  lemma {:induction false} ToggledAbove(n: nat, k: nat, b: nat)
    requires n < Power(b) && b <= k
    ensures Toggle(n, k) >= Power(b)
    decreases k
  {
    if b > 0 {
      ToggledAbove(n / 2, k - 1, b - 1);
    } else if k > 0 {
      ToggledAbove(0, k - 1, 0);
    }
  }

  function Digit(n: nat, k: nat): nat {
    if k == 0 then n % 2 else Digit(n / 2, k - 1)
  }

  lemma {:induction false} ToggleDigit(n: nat, k: nat)
    ensures Digit(n, k) == 1 ==> Power(k) <= n
    ensures Toggle(n, k) == if Digit(n, k) == 1 then n - Power(k) else n + Power(k)
    decreases k
  {
    if k > 0 { ToggleDigit(n / 2, k - 1); }
  }

  /** The digit the code tests for each bit. */
  lemma DigitIs(n: nat)
    ensures Digit(n, 0) == n % 2 && Digit(n, 1) == n / 2 % 2 && Digit(n, 2) == n / 4 % 2 && Digit(n, 3) == n / 8 % 2
    ensures Digit(n, 4) == n / 16 % 2 && Digit(n, 5) == n / 32 % 2
    ensures Digit(n, 6) == n / 64 % 2 && Digit(n, 7) == n / 128 % 2
  {
    assert n / 2 / 2 == n / 4 && n / 4 / 2 == n / 8 && n / 8 / 2 == n / 16;
    assert n / 16 / 2 == n / 32 && n / 32 / 2 == n / 64 && n / 64 / 2 == n / 128;
    assert Digit(n, 1) == n / 2 % 2;
    assert Digit(n, 2) == Digit(n / 2, 1) == Digit(n / 4, 0);
    assert Digit(n, 3) == Digit(n / 2, 2) == Digit(n / 4, 1) == Digit(n / 8, 0);
    assert Digit(n, 4) == Digit(n / 2, 3) == Digit(n / 4, 2) == Digit(n / 8, 1) == Digit(n / 16, 0);
    assert Digit(n, 5) == Digit(n / 2, 4) == Digit(n / 4, 3) == Digit(n / 8, 2) == Digit(n / 16, 1) == Digit(n / 32, 0);
    assert Digit(n, 6) == Digit(n / 4, 4) == Digit(n / 16, 2) == Digit(n / 64, 0) by {
      assert Digit(n, 6) == Digit(n / 2, 5) == Digit(n / 4, 4) == Digit(n / 8, 3) == Digit(n / 16, 2);
    }
    assert Digit(n, 7) == Digit(n / 2, 6) == Digit(n / 4, 5) == Digit(n / 8, 4) == Digit(n / 16, 3);
    assert Digit(n / 16, 3) == Digit(n / 32, 2) == Digit(n / 64, 1) == Digit(n / 128, 0);
  }

  lemma Powers()
    ensures Power(0) == 1 && Power(1) == 2 && Power(2) == 4 && Power(3) == 8
    ensures Power(4) == 16 && Power(5) == 32 && Power(6) == 64 && Power(7) == 128
  {
    assert Power(3) == 8;
    assert Power(5) == 32;
  }

  lemma FlipIsToggle(c: char, k: nat)
    requires c as int < 128 && k < 8
    ensures Flip(c, k) as int == Toggle(c as int, k)
  {
    hide Toggle, Digit, Power;
    ToggleDigit(c as int, k);
    DigitIs(c as int);
    Powers();
  }

  /** For two ASCII characters: flipping some bit of one gives the other exactly when they differ in one digit. */
  lemma FlipIff(c: char, d: char)
    requires c as int < 128 && d as int < 128
    ensures (exists k: nat :: k < 8 && Flip(c, k) == d) <==> BitsApart(c as int, d as int) == 1
  {
    hide Flip, Toggle, BitsApart;
    if k: nat :| k < 8 && Flip(c, k) == d {
      FlipIsToggle(c, k);
      ToggledIsOneBit(c as int, k);
    }
    if BitsApart(c as int, d as int) == 1 {
      var k := OneBitIsToggled(c as int, d as int);
      Powers();
      if k >= 7 { ToggledAbove(c as int, k, 7); }
      FlipIsToggle(c, k);
      assert Flip(c, k) == d;
    }
  }

  // ---- Keys and look-alikes ---------------------------------------------------------------------

  /** The letters as they lie on the keyboard, each row half a key to the right of the one above. */
  const KEYBOARD: seq<string> := ["qwertyuiop", "asdfghjkl", "zxcvbnm"]

  predicate KeyAt(row: int, column: int, c: char) {
    0 <= row < |KEYBOARD| && 0 <= column < |KEYBOARD[row]| && KEYBOARD[row][column] == c
  }

  /** `d` touches the key at a place: it lies beside it, above it or below it. */
  predicate Around(row: int, column: int, d: char) {
    || KeyAt(row, column - 1, d) || KeyAt(row, column + 1, d)
    || KeyAt(row - 1, column, d) || KeyAt(row - 1, column + 1, d)
    || KeyAt(row + 1, column - 1, d) || KeyAt(row + 1, column, d)
  }

  ghost predicate Touching(c: char, d: char) {
    exists row, column :: KeyAt(row, column, c) && Around(row, column, d)
  }

  lemma Row0(column: nat, c: char, d: char)
    requires KeyAt(0, column, c)
    ensures d in QwertyAdjacent(c) <==> Around(0, column, d)
  {
    if column == 0 {
    } else if column == 1 {
    } else if column == 2 {
    } else if column == 3 {
    } else if column == 4 {
    } else if column == 5 {
    } else if column == 6 {
    } else if column == 7 {
    } else if column == 8 {
    } else {
    }
  }

  lemma Row1(column: nat, c: char, d: char)
    requires KeyAt(1, column, c)
    ensures d in QwertyAdjacent(c) <==> Around(1, column, d)
  {
    if column == 0 {
    } else if column == 1 {
    } else if column == 2 {
    } else if column == 3 {
    } else if column == 4 {
    } else if column == 5 {
    } else if column == 6 {
    } else if column == 7 {
    } else {
    }
  }

  lemma Row2(column: nat, c: char, d: char)
    requires KeyAt(2, column, c)
    ensures d in QwertyAdjacent(c) <==> Around(2, column, d)
  {
    if column == 0 {
    } else if column == 1 {
    } else if column == 2 {
    } else if column == 3 {
    } else if column == 4 {
    } else if column == 5 {
    } else {
    }
  }

  lemma PlaceOf(c: char) returns (row: int, column: int)
    requires QwertyAdjacent(c) != ""
    ensures KeyAt(row, column, c)
  {
    row := if c in KEYBOARD[0] then 0 else if c in KEYBOARD[1] then 1 else 2;
    assert c in KEYBOARD[row] by { LettersAreKeys(c); }
    column :| 0 <= column < |KEYBOARD[row]| && KEYBOARD[row][column] == c;
  }

  lemma LettersAreKeys(c: char)
    requires QwertyAdjacent(c) != ""
    ensures c in KEYBOARD[0] || c in KEYBOARD[1] || c in KEYBOARD[2]
  {
  }

  /** The adjacency table is the keyboard. */
  lemma AdjacentIsTouching(c: char, d: char)
    ensures d in QwertyAdjacent(c) <==> Touching(c, d)
  {
    hide QwertyAdjacent, Around;
    if d in QwertyAdjacent(c) {
      var row, column := PlaceOf(c);
      AdjacentAt(row, column, c, d);
    }
    if Touching(c, d) {
      var row, column :| KeyAt(row, column, c) && Around(row, column, d);
      AdjacentAt(row, column, c, d);
    }
  }

  lemma AdjacentAt(row: int, column: int, c: char, d: char)
    requires KeyAt(row, column, c)
    ensures d in QwertyAdjacent(c) <==> Around(row, column, d)
  {
    hide QwertyAdjacent, Around;
    if row == 0 { Row0(column, c, d); } else if row == 1 { Row1(column, c, d); } else { Row2(column, c, d); }
  }

  /** The letter each digit stands for, from 0 to 9; none for 6. */
  const LETTERS_OF_DIGITS: string := "oizeas-tbg"

  /** A digit for the letter it stands for, two symbols, three letters that look like others, and two pairs of
      narrow letters that look like a wide one. */
  predicate LooksLike(g: string, c: char) {
    || (|g| == 1 && '0' <= g[0] <= '9' && g != "6" && LETTERS_OF_DIGITS[g[0] as int - '0' as int] == c)
    || (g == "@" && c == 'a') || (g == "$" && c == 's')
    || (g in ["1", "i"] && c == 'l') || (g == "l" && c == 'i') || (g == "m" && c == 'n') || (g == "v" && c == 'u')
    || (g == "rn" && c == 'm') || (g == "vv" && c == 'w')
  }

  lemma HomoglyphIsLookAlike(g: string, c: char)
    ensures g in Homoglyphs(c) <==> LooksLike(g, c)
  {
    if |g| == 1 { assert g == [g[0]]; }
  }

  // ---- What each algorithm lists -----------------------------------------------------------------

  /** The strings differ in character `i` and nowhere else. */
  predicate DiffersAt(a: string, b: string, i: nat) {
    i < |a| == |b| && a[i] != b[i] && forall j :: 0 <= j < |a| && j != i ==> a[j] == b[j]
  }

  /** `v` is the name with a change of the algorithm's kind at position `i`. */
  ghost predicate ChangedAt(alg: Algorithm, name: string, v: string, i: nat) {
    i < |name| &&
    match alg
    case Bitsquat =>
      DiffersAt(name, v, i) && IsHostName(v) && name[i] as int < 128 && BitsApart(name[i] as int, v[i] as int) == 1
    case Homoglyph => exists g :: LooksLike(g, name[i]) && v == name[..i] + g + name[i + 1..]
    case Insertion =>
      exists key :: Touching(name[i], key)
        && (v == name[..i] + [key] + name[i..] || v == name[..i + 1] + [key] + name[i + 1..])
    case Omission => |name| > 2 && v == name[..i] + name[i + 1..]
    case Substitution => DiffersAt(name, v, i) && Touching(name[i], v[i])
    case Transposition =>
      && i + 1 < |name| == |v| && v[i] == name[i + 1] != name[i] == v[i + 1]
      && forall j :: 0 <= j < |name| && j != i && j != i + 1 ==> v[j] == name[j]
    case VowelSwap => DiffersAt(name, v, i) && name[i] in "aeiou" && v[i] in "aeiou"
    case Hyphenation => i > 0 && name[i - 1] != '-' && name[i] != '-' && v == name[..i] + "-" + name[i..]
    case Subdomain => false
  }

  /** The variants of one position. */
  ghost predicate ListedAt(alg: Algorithm, name: string, v: string, i: nat) {
    i < |name| && exists k: nat :: k < Choices(alg, name, i) && v in VariantsAt(alg, name, i, k)
  }

  lemma OneSpliced(name: string, i: nat, c: char, v: string)
    requires i < |name| && c != name[i]
    ensures v == Spliced(name, i, [c]) <==> DiffersAt(name, v, i) && v[i] == c
  {
    if DiffersAt(name, v, i) && v[i] == c { assert v == Spliced(name, i, [c]); }
  }

  lemma NotSpliced(name: string, i: nat, v: string)
    requires i < |name|
    ensures Spliced(name, i, [name[i]]) == name
  {
  }

  lemma BitsquatAt(name: string, v: string, i: nat)
    requires i < |name|
    ensures ListedAt(Bitsquat, name, v, i) <==> ChangedAt(Bitsquat, name, v, i)
  {
    hide Flip, BitsApart, Spliced;
    var c := name[i];
    NotSpliced(name, i, v);
    if k: nat :| k < 8 && v in VariantsAt(Bitsquat, name, i, k) {
      var d := Flip(c, k);
      assert c as int < 128 by { FlipOfWide(c, k); }
      assert d != c;
      OneSpliced(name, i, d, v);
      assert IsHostChar(v[i]);
      FlipIff(c, d);
    }
    if ChangedAt(Bitsquat, name, v, i) {
      assert IsHostChar(v[i]);
      FlipIff(c, v[i]);
      var k: nat :| k < 8 && Flip(c, k) == v[i];
      OneSpliced(name, i, v[i], v);
      assert v in VariantsAt(Bitsquat, name, i, k);
    }
  }

  lemma FlipOfWide(c: char, k: nat)
    requires k < 8
    ensures c as int >= 128 ==> Flip(c, k) == c
  {
  }

  lemma HomoglyphAt(name: string, v: string, i: nat)
    requires i < |name|
    ensures ListedAt(Homoglyph, name, v, i) <==> ChangedAt(Homoglyph, name, v, i)
  {
    hide Homoglyphs, LooksLike;
    var c := name[i];
    if k: nat :| k < Choices(Homoglyph, name, i) && v in VariantsAt(Homoglyph, name, i, k) {
      HomoglyphIsLookAlike(Homoglyphs(c)[k], c);
    }
    if g :| LooksLike(g, c) && v == name[..i] + g + name[i + 1..] {
      HomoglyphIsLookAlike(g, c);
      var k :| 0 <= k < |Homoglyphs(c)| && Homoglyphs(c)[k] == g;
      assert v in VariantsAt(Homoglyph, name, i, k);
    }
  }

  lemma InsertionAt(name: string, v: string, i: nat)
    requires i < |name|
    ensures ListedAt(Insertion, name, v, i) <==> ChangedAt(Insertion, name, v, i)
  {
    hide QwertyAdjacent, Touching;
    var c := name[i];
    if k: nat :| k < Choices(Insertion, name, i) && v in VariantsAt(Insertion, name, i, k) {
      AdjacentIsTouching(c, QwertyAdjacent(c)[k]);
    }
    if key :| Touching(c, key)
              && (v == name[..i] + [key] + name[i..] || v == name[..i + 1] + [key] + name[i + 1..]) {
      AdjacentIsTouching(c, key);
      var k :| 0 <= k < |QwertyAdjacent(c)| && QwertyAdjacent(c)[k] == key;
      assert v in VariantsAt(Insertion, name, i, k);
    }
  }

  lemma SubstitutionAt(name: string, v: string, i: nat)
    requires i < |name|
    ensures ListedAt(Substitution, name, v, i) <==> ChangedAt(Substitution, name, v, i)
  {
    hide QwertyAdjacent, Touching, Spliced;
    var c := name[i];
    if k: nat :| k < Choices(Substitution, name, i) && v in VariantsAt(Substitution, name, i, k) {
      AdjacentIsTouching(c, QwertyAdjacent(c)[k]);
      QwertyFacts(c, k);
      OneSpliced(name, i, QwertyAdjacent(c)[k], v);
    }
    if DiffersAt(name, v, i) && Touching(c, v[i]) {
      AdjacentIsTouching(c, v[i]);
      var k :| 0 <= k < |QwertyAdjacent(c)| && QwertyAdjacent(c)[k] == v[i];
      OneSpliced(name, i, v[i], v);
      assert v in VariantsAt(Substitution, name, i, k);
    }
  }

  lemma VowelSwapAt(name: string, v: string, i: nat)
    requires i < |name|
    ensures ListedAt(VowelSwap, name, v, i) <==> ChangedAt(VowelSwap, name, v, i)
  {
    hide Spliced;
    if k: nat :| k < |VOWELS| && v in VariantsAt(VowelSwap, name, i, k) { OneSpliced(name, i, VOWELS[k], v); }
    if ChangedAt(VowelSwap, name, v, i) {
      var k :| 0 <= k < |VOWELS| && VOWELS[k] == v[i];
      OneSpliced(name, i, v[i], v);
      assert v in VariantsAt(VowelSwap, name, i, k);
    }
  }

  lemma TranspositionAt(name: string, v: string, i: nat)
    requires i < |name|
    ensures ListedAt(Transposition, name, v, i) <==> ChangedAt(Transposition, name, v, i)
  {
    if i + 1 < |name| {
      var swapped := name[..i] + [name[i + 1], name[i]] + name[i + 2..];
      assert swapped != name <==> name[i] != name[i + 1] by {
        if name[i] == name[i + 1] { assert swapped == name; } else { assert swapped[i] != name[i]; }
      }
      if ChangedAt(Transposition, name, v, i) {
        assert v == swapped;
        assert v in VariantsAt(Transposition, name, i, 0);
      }
    }
  }

  lemma OtherAt(alg: Algorithm, name: string, v: string, i: nat)
    requires i < |name| && alg in {Omission, Hyphenation, Subdomain}
    ensures ListedAt(alg, name, v, i) <==> ChangedAt(alg, name, v, i)
  {
    if ChangedAt(alg, name, v, i) {
      assert name[..i] + "" + name[i + 1..] == name[..i] + name[i + 1..];
      assert v in VariantsAt(alg, name, i, 0);
    }
    if k: nat :| k < Choices(alg, name, i) && v in VariantsAt(alg, name, i, k) {
      assert name[..i] + "" + name[i + 1..] == name[..i] + name[i + 1..];
    }
  }

  lemma ListedIsChanged(alg: Algorithm, name: string, v: string, i: nat)
    ensures ListedAt(alg, name, v, i) <==> ChangedAt(alg, name, v, i)
  {
    if i < |name| {
      hide ListedAt, ChangedAt;
      match alg
      case Bitsquat => BitsquatAt(name, v, i);
      case Homoglyph => HomoglyphAt(name, v, i);
      case Insertion => InsertionAt(name, v, i);
      case Substitution => SubstitutionAt(name, v, i);
      case Transposition => TranspositionAt(name, v, i);
      case VowelSwap => VowelSwapAt(name, v, i);
      case _ => OtherAt(alg, name, v, i);
    }
  }

  lemma {:induction false} MembersOf(alg: Algorithm, name: string, i: nat, n: nat, v: string)
    requires i < |name| && n <= Choices(alg, name, i)
    ensures v in VariantsOf(alg, name, i, n) <==> exists k: nat :: k < n && v in VariantsAt(alg, name, i, k)
  {
    hide VariantsAt, Choices;
    if n > 0 { MembersOf(alg, name, i, n - 1, v); }
  }

  lemma {:induction false} MembersUpTo(alg: Algorithm, name: string, n: nat, v: string)
    requires n <= |name|
    ensures v in VariantsUpTo(alg, name, n) <==> exists i: nat :: i < n && ListedAt(alg, name, v, i)
  {
    hide VariantsAt, Choices, VariantsOf;
    if n > 0 {
      MembersUpTo(alg, name, n - 1, v);
      MembersOf(alg, name, n - 1, Choices(alg, name, n - 1), v);
      assert v in VariantsOf(alg, name, n - 1, Choices(alg, name, n - 1)) <==> ListedAt(alg, name, v, n - 1);
    }
  }

  lemma {:induction false} MembersPrefixed(name: string, n: nat, v: string)
    requires n <= |PREFIXES|
    ensures v in Prefixed(name, n) <==> exists k :: 0 <= k < n && v == PREFIXES[k] + "." + name
  {
    if n > 0 { MembersPrefixed(name, n - 1, v); }
  }

  /** A string is a variant exactly when it is the name with one change of the algorithm's kind: one bit of one
      character flipped, a character replaced by a look-alike or by a key that touches its own, such a key added
      beside it, a character left out, two neighbours exchanged, a vowel replaced by another, an inner hyphen
      added away from other hyphens; or, for `Subdomain`, the name behind one of the prefixes. */
  lemma VariantIff(alg: Algorithm, name: string, v: string)
    ensures v in Variants(alg, name) <==>
              if alg == Subdomain then exists k :: 0 <= k < |PREFIXES| && v == PREFIXES[k] + "." + name
              else exists i: nat :: ChangedAt(alg, name, v, i)
  {
    hide *;
    VariantsAre(alg, name);
    if alg == Subdomain {
      MembersPrefixed(name, |PREFIXES|, v);
    } else {
      MembersUpTo(alg, name, |name|, v);
      forall i: nat ensures ListedAt(alg, name, v, i) <==> ChangedAt(alg, name, v, i) {
        ListedIsChanged(alg, name, v, i);
      }
      assert forall i: nat :: ListedAt(alg, name, v, i) ==> i < |name| by { ListedInRange(alg, name, v); }
    }
  }

  lemma VariantsAre(alg: Algorithm, name: string)
    ensures Variants(alg, name)
         == if alg == Subdomain then Prefixed(name, |PREFIXES|) else VariantsUpTo(alg, name, |name|)
  {
  }

  lemma ListedInRange(alg: Algorithm, name: string, v: string)
    ensures forall i: nat :: ListedAt(alg, name, v, i) ==> i < |name|
  {
  }

  /** The variants are listed from left to right: those of the first positions come first, and so do the first
      alternatives of a position. This decides which of them a cap keeps. */
  lemma {:induction false} LeftToRight(alg: Algorithm, name: string, m: nat, n: nat)
    requires m <= n <= |name|
    ensures VariantsUpTo(alg, name, m) <= VariantsUpTo(alg, name, n)
    ensures m < |name| ==>
              forall k: nat :: k <= Choices(alg, name, m) ==>
                VariantsOf(alg, name, m, k) <= VariantsOf(alg, name, m, Choices(alg, name, m))
    decreases n
  {
    hide VariantsAt, Choices, VariantsOf;
    if m < n { LeftToRight(alg, name, m, n - 1); }
    if m < |name| {
      forall k: nat | k <= Choices(alg, name, m)
        ensures VariantsOf(alg, name, m, k) <= VariantsOf(alg, name, m, Choices(alg, name, m))
      {
        FirstAlternatives(alg, name, m, k, Choices(alg, name, m));
      }
    }
  }

  /** A position is listed once at most by the algorithms with one change per position, a vowel five times, a bit
      eight times. */
  lemma OncePerPosition(alg: Algorithm, name: string, i: nat)
    requires i < |name| && alg in {Omission, Transposition, Hyphenation, VowelSwap, Bitsquat}
    ensures |VariantsOf(alg, name, i, Choices(alg, name, i))|
         <= if alg == VowelSwap then 5 else if alg == Bitsquat then 8 else 1
  {
    AtMostOneEach(alg, name, i, Choices(alg, name, i));
  }

  lemma {:induction false} AtMostOneEach(alg: Algorithm, name: string, i: nat, n: nat)
    requires i < |name| && n <= Choices(alg, name, i)
    requires alg in {Omission, Transposition, Hyphenation, VowelSwap, Bitsquat}
    ensures |VariantsOf(alg, name, i, n)| <= n
    decreases n
  {
    hide Spliced, Flip, IsHostName;
    if n > 0 { AtMostOneEach(alg, name, i, n - 1); }
  }

  lemma {:induction false} FirstAlternatives(alg: Algorithm, name: string, i: nat, k: nat, n: nat)
    requires i < |name| && k <= n <= Choices(alg, name, i)
    ensures VariantsOf(alg, name, i, k) <= VariantsOf(alg, name, i, n)
    decreases n
  {
    hide VariantsAt;
    if k < n { FirstAlternatives(alg, name, i, k, n - 1); }
  }
}
