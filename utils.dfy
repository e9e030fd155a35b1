/**
 * The presentation helpers of lib/utils.ts: the additive secret-strength
 * score, the colour and label bands it is shown with, the plant icon table
 * and the random secret generator.
 *
 * A JavaScript string is a sequence of UTF-16 code units; here it is a Dafny
 * `string` of Unicode scalar values, and `Utf16Length` gives back the
 * JavaScript `.length`. The regular expressions of the scoring function carry
 * no `u` flag, so their classes `[a-z]`, `[A-Z]`, `\d` and `[^a-zA-Z0-9]`
 * are ASCII ranges, and `.` matches anything but a line terminator.
 */
module Utils {

  // ---------------------------------------------------------------------
  // Character classes of the scoring expressions
  // ---------------------------------------------------------------------

  datatype CharClass = Lower | Upper | Digit | Letter | Alnum | Special

  predicate InClass(c: char, k: CharClass)
  {
    match k
    case Lower => 'a' <= c <= 'z'
    case Upper => 'A' <= c <= 'Z'
    case Digit => '0' <= c <= '9'
    case Letter => 'a' <= c <= 'z' || 'A' <= c <= 'Z'
    case Alnum => 'a' <= c <= 'z' || 'A' <= c <= 'Z' || '0' <= c <= '9'
    case Special => !('a' <= c <= 'z' || 'A' <= c <= 'Z' || '0' <= c <= '9')
  }

  /** The characters `.` refuses to match: LF, CR, LINE SEPARATOR, PARAGRAPH SEPARATOR. */
  predicate IsLineTerminator(c: char)
  {
    c == '\n' || c == '\r' || c == '\U{2028}' || c == '\U{2029}'
  }

  predicate NoLineTerminator(s: string)
  {
    forall m :: 0 <= m < |s| ==> !IsLineTerminator(s[m])
  }

  /** `/[k]/.test(s)` */
  predicate Contains(s: string, k: CharClass)
  {
    exists i :: 0 <= i < |s| && InClass(s[i], k)
  }

  /** No line terminator strictly between positions i and j. */
  predicate ClearBetween(s: string, i: int, j: int)
    requires 0 <= i < j < |s|
  {
    forall m :: i < m < j ==> !IsLineTerminator(s[m])
  }

  /** `/[k1].*[k2]/.test(s)`: a `k1` character, later a `k2` character, no line terminator between. */
  predicate Follows(s: string, k1: CharClass, k2: CharClass)
  {
    exists i, j :: 0 <= i < j < |s| && InClass(s[i], k1) && InClass(s[j], k2) && ClearBetween(s, i, j)
  }

  /** `/[k1].*[k2]|[k2].*[k1]/.test(s)` */
  predicate EitherOrder(s: string, k1: CharClass, k2: CharClass)
  {
    Follows(s, k1, k2) || Follows(s, k2, k1)
  }

  /** JavaScript's `.length`: characters beyond the Basic Multilingual Plane take two code units. */
  function Utf16Length(s: string): (n: nat)
    ensures |s| <= n <= 2 * |s|
  {
    if s == [] then 0 else (if s[0] as int >= 0x1_0000 then 2 else 1) + Utf16Length(s[1..])
  }

  function Min(a: int, b: int): int
  {
    if a <= b then a else b
  }

  function Max(a: int, b: int): int
  {
    if a <= b then b else a
  }

  // ---------------------------------------------------------------------
  // The strength score (lib/utils.ts:80-123)
  // ---------------------------------------------------------------------

  function LengthBonus(s: string): (r: int)
    ensures 0 <= r <= 40
    ensures r == 40 <==> Utf16Length(s) >= 10
  {
    Min(Utf16Length(s) * 4, 40)
  }

  function Bonus(present: bool, points: nat): nat
  {
    if present then points else 0
  }

  /** The +10/+10/+10/+15 class bonuses. */
  function ClassBonus(s: string): (r: int)
    ensures 0 <= r <= 45
  {
    Bonus(Contains(s, Lower), 10) + Bonus(Contains(s, Upper), 10)
    + Bonus(Contains(s, Digit), 10) + Bonus(Contains(s, Special), 15)
  }

  /** The three +5 combination bonuses. */
  function ComboBonus(s: string): (r: int)
    ensures 0 <= r <= 15
  {
    Bonus(EitherOrder(s, Lower, Upper), 5) + Bonus(EitherOrder(s, Digit, Letter), 5)
    + Bonus(EitherOrder(s, Special, Alnum), 5)
  }

  /** The sum before the final `Math.min(score, 100)`; it never exceeds 100. */
  function RawScore(s: string): (r: int)
    ensures 0 <= r <= 100
    ensures s == [] ==> r == 0
  {
    LengthBonus(s) + ClassBonus(s) + ComboBonus(s)
  }

  /** The score `calculatePasswordStrength` returns: 0 for "", otherwise at least the length bonus, never above 100. */
  function Strength(s: string): (score: int)
    ensures 0 <= score <= 100
    ensures s == [] ==> score == 0
    ensures s != [] ==> score >= LengthBonus(s)
  {
    if s == [] then 0 else Min(RawScore(s), 100)
  }

  /** The cap of line 122 and the early return of line 81 never change the sum. */
  lemma StrengthIsRawScore(s: string)
    ensures Strength(s) == RawScore(s)
    ensures 0 <= Strength(s) <= 100
  {
  }

  method CalculatePasswordStrength(password: string) returns (score: int)
    ensures score == Strength(password)
    ensures 0 <= score <= 100
    ensures password == [] ==> score == 0
  {
    if password == [] {
      return 0;
    }
    score := 0;
    score := score + Min(Utf16Length(password) * 4, 40);
    if Contains(password, Lower) {
      score := score + 10;
    }
    if Contains(password, Upper) {
      score := score + 10;
    }
    if Contains(password, Digit) {
      score := score + 10;
    }
    if Contains(password, Special) {
      score := score + 15;
    }
    if EitherOrder(password, Lower, Upper) {
      score := score + 5;
    }
    if EitherOrder(password, Digit, Letter) {
      score := score + 5;
    }
    if EitherOrder(password, Special, Alnum) {
      score := score + 5;
    }
    score := Min(score, 100);
  }

  // ---------------------------------------------------------------------
  // Properties of the score
  // ---------------------------------------------------------------------

  predicate Disjoint(k1: CharClass, k2: CharClass)
  {
    forall c: char {:trigger InClass(c, k1), InClass(c, k2)} :: !(InClass(c, k1) && InClass(c, k2))
  }

  /** The three pairs the combination bonuses test are pairs of disjoint classes. */
  lemma ComboPairsDisjoint()
    ensures Disjoint(Lower, Upper) && Disjoint(Digit, Letter) && Disjoint(Special, Alnum)
  {
  }

  /** A combination match needs a character of each class somewhere. */
  lemma EitherOrderNeedsBoth(s: string, k1: CharClass, k2: CharClass)
    ensures EitherOrder(s, k1, k2) ==> Contains(s, k1) && Contains(s, k2)
  {
    if Follows(s, k1, k2) {
      var i, j :| 0 <= i < j < |s| && InClass(s[i], k1) && InClass(s[j], k2) && ClearBetween(s, i, j);
    }
    if Follows(s, k2, k1) {
      var i, j :| 0 <= i < j < |s| && InClass(s[i], k2) && InClass(s[j], k1) && ClearBetween(s, i, j);
    }
  }

  /** On text without line terminators a combination bonus is exactly "both classes present",
      whichever comes first. */
  lemma EitherOrderIffBoth(s: string, k1: CharClass, k2: CharClass)
    requires NoLineTerminator(s) && Disjoint(k1, k2)
    ensures EitherOrder(s, k1, k2) <==> Contains(s, k1) && Contains(s, k2)
  {
    if Contains(s, k1) && Contains(s, k2) {
      var i :| 0 <= i < |s| && InClass(s[i], k1);
      var j :| 0 <= j < |s| && InClass(s[j], k2);
      if i < j {
        assert ClearBetween(s, i, j);
        assert Follows(s, k1, k2);
      } else {
        assert ClearBetween(s, j, i);
        assert Follows(s, k2, k1);
      }
    }
  }

  predicate SameChars(s: string, t: string)
  {
    forall c :: c in s <==> c in t
  }

  lemma ContainsByChars(s: string, t: string, k: CharClass)
    requires SameChars(s, t)
    ensures Contains(s, k) <==> Contains(t, k)
  {
    if Contains(s, k) {
      var i :| 0 <= i < |s| && InClass(s[i], k);
      assert s[i] in t;
      var j :| 0 <= j < |t| && t[j] == s[i];
    }
    if Contains(t, k) {
      var i :| 0 <= i < |t| && InClass(t[i], k);
      assert t[i] in s;
      var j :| 0 <= j < |s| && s[j] == t[i];
    }
  }

  /**
   * Position does not matter: two texts with the same characters, the same
   * length and no line terminators score the same.
   */
  lemma StrengthOrderIndependent(s: string, t: string)
    requires SameChars(s, t) && Utf16Length(s) == Utf16Length(t)
    requires NoLineTerminator(s) && NoLineTerminator(t)
    ensures Strength(s) == Strength(t)
  {
    ComboPairsDisjoint();
    forall k | k in [Lower, Upper, Digit, Letter, Special, Alnum]
      ensures Contains(s, k) <==> Contains(t, k)
    {
      ContainsByChars(s, t, k);
    }
    EitherOrderIffBoth(s, Lower, Upper);
    EitherOrderIffBoth(t, Lower, Upper);
    EitherOrderIffBoth(s, Digit, Letter);
    EitherOrderIffBoth(t, Digit, Letter);
    EitherOrderIffBoth(s, Special, Alnum);
    EitherOrderIffBoth(t, Special, Alnum);
  }

  lemma ContainsExtended(a: string, s: string, b: string, k: CharClass)
    requires Contains(s, k)
    ensures Contains(a + s + b, k)
  {
    var i :| 0 <= i < |s| && InClass(s[i], k);
    assert (a + s + b)[|a| + i] == s[i];
  }

  lemma FollowsExtended(a: string, s: string, b: string, k1: CharClass, k2: CharClass)
    requires Follows(s, k1, k2)
    ensures Follows(a + s + b, k1, k2)
  {
    var i, j :| 0 <= i < j < |s| && InClass(s[i], k1) && InClass(s[j], k2) && ClearBetween(s, i, j);
    var t := a + s + b;
    assert t[|a| + i] == s[i] && t[|a| + j] == s[j];
    assert ClearBetween(t, |a| + i, |a| + j) by {
      forall m | |a| + i < m < |a| + j ensures !IsLineTerminator(t[m]) {
        assert t[m] == s[m - |a|];
      }
    }
  }

  lemma {:induction false} Utf16LengthConcat(s: string, t: string)
    ensures Utf16Length(s + t) == Utf16Length(s) + Utf16Length(t)
  {
    if s != [] {
      assert (s + t)[1..] == s[1..] + t;
      Utf16LengthConcat(s[1..], t);
    } else {
      assert s + t == t;
    }
  }

  lemma EitherOrderExtended(a: string, s: string, b: string, k1: CharClass, k2: CharClass)
    requires EitherOrder(s, k1, k2)
    ensures EitherOrder(a + s + b, k1, k2)
  {
    if Follows(s, k1, k2) {
      FollowsExtended(a, s, b, k1, k2);
    } else {
      FollowsExtended(a, s, b, k2, k1);
    }
  }

  lemma ClassBonusExtended(a: string, s: string, b: string)
    ensures ClassBonus(s) <= ClassBonus(a + s + b)
  {
    if Contains(s, Lower) { ContainsExtended(a, s, b, Lower); }
    if Contains(s, Upper) { ContainsExtended(a, s, b, Upper); }
    if Contains(s, Digit) { ContainsExtended(a, s, b, Digit); }
    if Contains(s, Special) { ContainsExtended(a, s, b, Special); }
  }

  lemma ComboBonusExtended(a: string, s: string, b: string)
    ensures ComboBonus(s) <= ComboBonus(a + s + b)
  {
    if EitherOrder(s, Lower, Upper) { EitherOrderExtended(a, s, b, Lower, Upper); }
    if EitherOrder(s, Digit, Letter) { EitherOrderExtended(a, s, b, Digit, Letter); }
    if EitherOrder(s, Special, Alnum) { EitherOrderExtended(a, s, b, Special, Alnum); }
  }

  /** Adding characters before or after a secret never lowers its score. */
  lemma StrengthMonotoneUnderExtension(a: string, s: string, b: string)
    ensures Strength(s) <= Strength(a + s + b)
  {
    var t := a + s + b;
    Utf16LengthConcat(a, s);
    Utf16LengthConcat(a + s, b);
    assert LengthBonus(s) <= LengthBonus(t);
    ClassBonusExtended(a, s, b);
    ComboBonusExtended(a, s, b);
    StrengthIsRawScore(s);
    StrengthIsRawScore(t);
  }

  lemma {:induction false} Utf16LengthBmp(s: string)
    requires forall i :: 0 <= i < |s| ==> s[i] as int < 0x1_0000
    ensures Utf16Length(s) == |s|
  {
    if s != [] {
      Utf16LengthBmp(s[1..]);
    }
  }

  /** Every character earns a class bonus, so a non-empty secret scores at least its length bonus plus 10. */
  lemma StrengthLowerBound(s: string)
    requires s != []
    ensures Strength(s) >= LengthBonus(s) + 10
  {
    assert InClass(s[0], Lower) || InClass(s[0], Upper) || InClass(s[0], Digit) || InClass(s[0], Special);
  }

  /** A secret of lower-case letters only earns the lower-case bonus and nothing else. */
  lemma LowerOnlyBonuses(s: string)
    requires s != [] && forall i :: 0 <= i < |s| ==> InClass(s[i], Lower)
    ensures ClassBonus(s) == 10 && ComboBonus(s) == 0
  {
    assert InClass(s[0], Lower);
    assert !Contains(s, Upper) && !Contains(s, Digit) && !Contains(s, Special);
    EitherOrderNeedsBoth(s, Lower, Upper);
    EitherOrderNeedsBoth(s, Digit, Letter);
    EitherOrderNeedsBoth(s, Special, Alnum);
  }

  /** The length bonus is `min(4 * length, 40)`, so "password" (8 code units, lower case only) scores 32 + 10. */
  lemma StrengthOfPassword()
    ensures Strength("password") == 42
  {
    var s := "password";
    Utf16LengthBmp(s);
    LowerOnlyBonuses(s);
  }

  lemma MixedClassBonus(s: string)
    requires s == "P@ssw0rd123"
    ensures ClassBonus(s) == 45
  {
    assert InClass(s[2], Lower) && InClass(s[0], Upper) && InClass(s[5], Digit) && InClass(s[1], Special);
  }

  lemma MixedComboBonus(s: string)
    requires s == "P@ssw0rd123"
    ensures ComboBonus(s) == 15
  {
    assert InClass(s[0], Upper) && InClass(s[2], Lower) && ClearBetween(s, 0, 2);
    assert Follows(s, Upper, Lower);
    assert InClass(s[4], Letter) && InClass(s[5], Digit) && ClearBetween(s, 4, 5);
    assert Follows(s, Letter, Digit);
    assert InClass(s[0], Alnum) && InClass(s[1], Special) && ClearBetween(s, 0, 1);
    assert Follows(s, Alnum, Special);
  }

  /** Eleven code units and all four classes: 40 + 10 + 10 + 10 + 15 + 5 + 5 + 5 = 100. */
  lemma StrengthOfMixed(s: string)
    requires s == "P@ssw0rd123"
    ensures Strength(s) == 100
  {
    assert LengthBonus(s) == 40 by {
      Utf16LengthBmp(s);
    }
    MixedClassBonus(s);
    MixedComboBonus(s);
  }

  /**
   * A line terminator blocks a combination bonus: "a\nB" holds a lower- and an
   * upper-case letter but earns no lower/upper bonus.
   */
  lemma LineTerminatorBlocksCombo()
    ensures Contains("a\nB", Lower) && Contains("a\nB", Upper)
    ensures !EitherOrder("a\nB", Lower, Upper)
  {
    var s := "a\nB";
    assert InClass(s[0], Lower) && InClass(s[2], Upper);
    forall i, j | 0 <= i < j < |s| && InClass(s[i], Lower) && InClass(s[j], Upper)
      ensures !ClearBetween(s, i, j)
    {
      assert i == 0 && j == 2;
      assert IsLineTerminator(s[1]);
    }
    forall i, j | 0 <= i < j < |s| ensures !(InClass(s[i], Upper) && InClass(s[j], Lower)) {
    }
  }

  /** The same three characters in another order earn the bonus, so "a\nB" scores 52 and "aB\n" 57. */
  lemma CharacterOrderMatters()
    ensures SameChars("a\nB", "aB\n")
    ensures Strength("a\nB") == 52 && Strength("aB\n") == 57
  {
    var s := "a\nB";
    var t := "aB\n";
    LineTerminatorBlocksCombo();
    Utf16LengthBmp(s);
    Utf16LengthBmp(t);
    assert ClassBonus(s) == 35 by {
      assert InClass(s[0], Lower) && InClass(s[2], Upper) && InClass(s[1], Special);
      assert forall i :: 0 <= i < |s| ==> !InClass(s[i], Digit);
    }
    assert ClassBonus(t) == 35 by {
      assert InClass(t[0], Lower) && InClass(t[1], Upper) && InClass(t[2], Special);
      assert forall i :: 0 <= i < |t| ==> !InClass(t[i], Digit);
    }
    assert ComboBonus(s) == 5 by {
      assert InClass(s[0], Alnum) && InClass(s[1], Special) && ClearBetween(s, 0, 1);
      assert Follows(s, Alnum, Special);
      EitherOrderNeedsBoth(s, Digit, Letter);
    }
    assert ComboBonus(t) == 10 by {
      assert InClass(t[0], Lower) && InClass(t[1], Upper) && ClearBetween(t, 0, 1);
      assert Follows(t, Lower, Upper);
      assert InClass(t[1], Alnum) && InClass(t[2], Special) && ClearBetween(t, 1, 2);
      assert Follows(t, Alnum, Special);
      EitherOrderNeedsBoth(t, Digit, Letter);
    }
  }

  // ---------------------------------------------------------------------
  // Colour and label bands (lib/utils.ts:34-48)
  // ---------------------------------------------------------------------

  const StrengthColors: seq<string> := ["bg-red-500", "bg-orange-500", "bg-yellow-500", "bg-green-500", "bg-emerald-500"]
  const StrengthLabels: seq<string> := ["Muito fraca", "Fraca", "M\U{E9}dia", "Forte", "Excelente"]

  /** The band a score falls in, counted in steps of 20: 0 below 20, 4 from 80 up. */
  function StrengthBand(strength: int): (b: nat)
    ensures b < 5
  {
    if strength < 0 then 0 else Min(strength / 20, 4)
  }

  function GetStrengthColor(strength: int): (color: string)
    ensures color == StrengthColors[StrengthBand(strength)]
  {
    if strength >= 80 then "bg-emerald-500"
    else if strength >= 60 then "bg-green-500"
    else if strength >= 40 then "bg-yellow-500"
    else if strength >= 20 then "bg-orange-500"
    else "bg-red-500"
  }

  function GetStrengthLabel(strength: int): (name: string)
    ensures name == StrengthLabels[StrengthBand(strength)]
  {
    if strength >= 80 then "Excelente"
    else if strength >= 60 then "Forte"
    else if strength >= 40 then "M\U{E9}dia"
    else if strength >= 20 then "Fraca"
    else "Muito fraca"
  }

  /** A higher score never falls in a lower band. */
  lemma StrengthBandMonotone(a: int, b: int)
    requires a <= b
    ensures StrengthBand(a) <= StrengthBand(b)
  {
    if 0 <= a {
      assert a / 20 <= b / 20;
    }
  }

  /** Colour and label use the same thresholds: each colour goes with exactly one label. */
  lemma ColorLabelPaired(a: int, b: int)
    ensures GetStrengthColor(a) == GetStrengthColor(b) <==> StrengthBand(a) == StrengthBand(b)
    ensures GetStrengthLabel(a) == GetStrengthLabel(b) <==> StrengthBand(a) == StrengthBand(b)
  {
    assert forall i, j :: 0 <= i < j < 5 ==> StrengthColors[i] != StrengthColors[j] && StrengthLabels[i] != StrengthLabels[j] by {
      forall i, j | 0 <= i < j < 5 ensures StrengthColors[i] != StrengthColors[j] && StrengthLabels[i] != StrengthLabels[j] {
        assert StrengthColors[i][3] != StrengthColors[j][3];
        assert StrengthLabels[i][1] != StrengthLabels[j][1];
      }
    }
  }

  // ---------------------------------------------------------------------
  // Plant icon (lib/utils.ts:50-66)
  // ---------------------------------------------------------------------

  const Sprout := "\U{1F331}"
  const Herb := "\U{1F33F}"
  const PottedPlant := "\U{1FAB4}"
  const Tree := "\U{1F333}"
  const Tulip := "\U{1F337}"
  const Blossom := "\U{1F338}"
  const Cactus := "\U{1F335}"
  const Shamrock := "\U{2618}\U{FE0F}"

  /** The five-stage table of a plant type; every other type uses the "semente" table. */
  function PlantTable(plantType: string): (table: seq<string>)
    ensures |table| == 5 && table[0] == Sprout
  {
    match plantType
    case "arvore" => [Sprout, Herb, PottedPlant, Tree, Tree]
    case "flor" => [Sprout, Herb, PottedPlant, Tulip, Blossom]
    case "arbusto" => [Sprout, Herb, PottedPlant, Cactus, Cactus]
    case "grama" => [Sprout, Herb, Herb, Herb, Shamrock]
    case _ => [Sprout, Sprout, Herb, Herb, Herb]
  }

  /** The growth stage is clamped to 1..5 before it indexes the table, so the lookup is always in range. */
  function GetPlantIcon(plantType: string, growthStage: int := 1): (icon: string)
    ensures icon in PlantTable(plantType)
    ensures 1 <= growthStage <= 5 ==> icon == PlantTable(plantType)[growthStage - 1]
    ensures growthStage < 1 ==> icon == Sprout
    ensures growthStage > 5 ==> icon == PlantTable(plantType)[4]
  {
    var stage := Min(Max(growthStage, 1), 5);
    PlantTable(plantType)[stage - 1]
  }

  /** A plant type outside the four named ones is drawn as a seed. */
  lemma UnknownPlantIsSeed(plantType: string, growthStage: int)
    requires plantType !in ["arvore", "flor", "arbusto", "grama"]
    ensures GetPlantIcon(plantType, growthStage) == GetPlantIcon("semente", growthStage)
  {
  }

  // ---------------------------------------------------------------------
  // Random secret generator (lib/utils.ts:68-78)
  // ---------------------------------------------------------------------

  const Lowercase := "abcdefghijklmnopqrstuvwxyz"
  const Uppercase := "ABCDEFGHIJKLMNOPQRSTUVWXYZ"
  const Digits := "0123456789"
  const Symbols := "!@#$%^&*()_+~`|}{[]:;?><,./-="

  /** The 91-character alphabet of the generator, in the order of lib/utils.ts:69. */
  const Charset := Lowercase + Uppercase + Digits + Symbols

  /**
   * `draws[i]` stands for `Math.floor(Math.random() * charset.length)` in the
   * i-th round of the loop.
   */
  method GenerateRandomPassword(draws: seq<int>, length: int := 16) returns (password: string)
    requires |draws| >= length
    requires forall i :: 0 <= i < |draws| ==> 0 <= draws[i] < |Charset|
    ensures |password| == Max(length, 0)
    ensures forall i :: 0 <= i < |password| ==> password[i] == Charset[draws[i]]
  {
    password := "";
    var i := 0;
    while i < length
      invariant 0 <= i == |password|
      invariant length >= 0 ==> i <= length
      invariant length < 0 ==> i == 0
      invariant forall m :: 0 <= m < i ==> password[m] == Charset[draws[m]]
    {
      var randomIndex := draws[i];
      password := password + [Charset[randomIndex]];
      i := i + 1;
    }
  }

  /** The charset is ASCII, so a generated secret's JavaScript length is its character count. */
  lemma CharsetIsAscii()
    ensures |Charset| == 91
    ensures forall i :: 0 <= i < |Charset| ==> Charset[i] as int < 128
  {
    assert forall i :: 0 <= i < |Lowercase| ==> 'a' <= Lowercase[i] <= 'z';
    assert forall i :: 0 <= i < |Uppercase| ==> 'A' <= Uppercase[i] <= 'Z';
    assert forall i :: 0 <= i < |Digits| ==> '0' <= Digits[i] <= '9';
    assert forall i :: 0 <= i < |Symbols| ==> Symbols[i] as int < 128;
  }

  /** A generated secret of n >= 1 characters scores at least min(4 n, 40) + 10. */
  lemma GeneratedStrengthLowerBound(s: string)
    requires s != [] && forall i :: 0 <= i < |s| ==> s[i] in Charset
    ensures Strength(s) >= Min(4 * |s|, 40) + 10
  {
    CharsetIsAscii();
    forall i | 0 <= i < |s| ensures s[i] as int < 0x1_0000 {
      var j :| 0 <= j < |Charset| && Charset[j] == s[i];
    }
    Utf16LengthBmp(s);
    StrengthLowerBound(s);
  }
}
