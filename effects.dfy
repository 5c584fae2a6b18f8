// The effect-string parser of the stat system (parseEffectString): finds a stat
// keyword followed by optional spaces, '+', optional spaces and decimal digits
// anywhere in a research unlock or item effect text.
module EffectParser {
  import opened Types

  /** A parsed bonus: which stat, and by how much. */
  datatype StatMod = StatMod(stat: Stat, value: nat)

  const KW_MAX_HEALTH: string := "최대 체력"
  const KW_ATTACK_DAMAGE: string := "공격력"
  const KW_MOVE_SPEED: string := "이동 속도"
  const KW_ATTACK_RANGE: string := "공격 범위"
  const KW_MAX_AP: string := "최대 행동력"

  /** The optional "all units'" prefix of the general pattern. */
  const ALL_UNITS_PREFIX: string := "모든 유닛의"

  function Keyword(st: Stat): string
  {
    match st
    case MaxHealth => KW_MAX_HEALTH
    case AttackDamage => KW_ATTACK_DAMAGE
    case MoveSpeed => KW_MOVE_SPEED
    case AttackRange => KW_ATTACK_RANGE
    case MaxActionPoints => KW_MAX_AP
  }

  /** JavaScript's `\s` class. */
  predicate IsSpace(c: char)
  {
    ('\t' <= c <= '\r') || c == ' ' || c == '\U{00A0}' || c == '\U{1680}'
    || ('\U{2000}' <= c <= '\U{200A}') || c == '\U{2028}' || c == '\U{2029}'
    || c == '\U{202F}' || c == '\U{205F}' || c == '\U{3000}' || c == '\U{FEFF}'
  }

  /** JavaScript's `\d` class (ASCII digits only). */
  predicate IsDigit(c: char)
  {
    '0' <= c <= '9'
  }

  /** JavaScript's `\w` class. */
  predicate IsWordChar(c: char)
  {
    ('a' <= c <= 'z') || ('A' <= c <= 'Z') || IsDigit(c) || c == '_'
  }

  predicate OccursAt(s: string, w: string, k: nat)
  {
    k + |w| <= |s| && s[k..k + |w|] == w
  }

  /** The keyword the alternation `(최대 체력|공격력|이동 속도|공격 범위|최대 행동력)` matches at `k`. */
  function KeywordAt(s: string, k: nat): (r: Option<Stat>)
    ensures r.Some? ==> OccursAt(s, Keyword(r.value), k)
    ensures r.None? ==> forall st :: !OccursAt(s, Keyword(st), k)
  {
    if OccursAt(s, KW_MAX_HEALTH, k) then Some(MaxHealth)
    else if OccursAt(s, KW_ATTACK_DAMAGE, k) then Some(AttackDamage)
    else if OccursAt(s, KW_MOVE_SPEED, k) then Some(MoveSpeed)
    else if OccursAt(s, KW_ATTACK_RANGE, k) then Some(AttackRange)
    else if OccursAt(s, KW_MAX_AP, k) then Some(MaxActionPoints)
    else None
  }

  /** First index at or after `i` that is not whitespace: the extent of a greedy `\s*`. */
  function SkipSpaces(s: string, i: nat): (r: nat)
    requires i <= |s|
    ensures i <= r <= |s|
    ensures forall j :: i <= j < r ==> IsSpace(s[j])
    ensures r < |s| ==> !IsSpace(s[r])
    decreases |s| - i
  {
    if i < |s| && IsSpace(s[i]) then SkipSpaces(s, i + 1) else i
  }

  /** First index at or after `i` that is not a digit: the extent of a greedy `\d+`. */
  function DigitsEnd(s: string, i: nat): (r: nat)
    requires i <= |s|
    ensures i <= r <= |s|
    ensures forall j :: i <= j < r ==> IsDigit(s[j])
    ensures r < |s| ==> !IsDigit(s[r])
    decreases |s| - i
  {
    if i < |s| && IsDigit(s[i]) then DigitsEnd(s, i + 1) else i
  }

  /** `parseInt(d, 10)` of a string of decimal digits. */
  function DecimalValue(d: string): nat
    requires forall j :: 0 <= j < |d| ==> IsDigit(d[j])
  {
    if |d| == 0 then 0
    else
      var c := d[|d| - 1];
      assert IsDigit(c);
      10 * DecimalValue(d[..|d| - 1]) + ((c as int) - ('0' as int))
  }

  /**
   * The tail `(keyword)\s*\+\s*(\d+)` of the general pattern matched at `k`,
   * with the stat and value it captures.
   */
  function MatchAt(s: string, k: nat): Option<StatMod>
  {
    match KeywordAt(s, k)
    case None => None
    case Some(st) =>
      var a := SkipSpaces(s, k + |Keyword(st)|);
      if a < |s| && s[a] == '+' then
        var b := SkipSpaces(s, a + 1);
        var e := DigitsEnd(s, b);
        if e > b then Some(StatMod(st, DecimalValue(s[b..e]))) else None
      else None
  }

  /** Leftmost match at or after position `i`. */
  function ParseFrom(s: string, i: nat): Option<StatMod>
    decreases |s| - i
  {
    if i >= |s| then None
    else if MatchAt(s, i).Some? then MatchAt(s, i)
    else ParseFrom(s, i + 1)
  }

  /**
   * The general pattern of parseEffectString, searched anywhere in the
   * string. The unit-specific second pattern can never produce a result
   * (SpecificPatternIsSubsumed), so this is the whole parser.
   */
  function ParseEffectString(s: string): (r: Option<StatMod>)
    ensures r.None? <==> forall k :: 0 <= k < |s| ==> MatchAt(s, k).None?
    ensures r.Some? ==> exists k :: 0 <= k < |s| && r == MatchAt(s, k) && forall j :: 0 <= j < k ==> MatchAt(s, j).None?
  {
    if ParseFrom(s, 0).None? then
      ParseFromNone(s, 0);
      None
    else
      ParseIsLeftmost(s);
      ParseFrom(s, 0)
  }

  /** From position `i` on, the parse reports nothing only when no tail match starts there or later. */
  lemma ParseFromNone(s: string, i: nat)
    requires ParseFrom(s, i).None?
    ensures forall k :: i <= k < |s| ==> MatchAt(s, k).None?
  {
    forall k | i <= k < |s| ensures MatchAt(s, k).None? {
      if MatchAt(s, k).Some? {
        AnyMatchGivesBonus(s, i, k);
      }
    }
  }

  /** From position `i` on, a parse result is the first tail match at or after `i`, found at `k`. */
  lemma {:induction false} ParseFromFirst(s: string, i: nat) returns (k: nat)
    requires ParseFrom(s, i).Some?
    ensures i <= k < |s| && ParseFrom(s, i) == MatchAt(s, k)
    ensures forall j :: i <= j < k ==> MatchAt(s, j).None?
    decreases |s| - i
  {
    if MatchAt(s, i).Some? {
      k := i;
    } else {
      k := ParseFromFirst(s, i + 1);
      forall j | i <= j < k ensures MatchAt(s, j).None? {
        if j == i {
          assert MatchAt(s, i).None?;
        } else {
          assert i + 1 <= j < k;
        }
      }
    }
  }

  /** The parse result is the leftmost tail match. */
  lemma ParseIsLeftmost(s: string)
    requires ParseFrom(s, 0).Some?
    ensures exists k :: 0 <= k < |s| && ParseFrom(s, 0) == MatchAt(s, k) && forall j :: 0 <= j < k ==> MatchAt(s, j).None?
  {
    var k := ParseFromFirst(s, 0);
  }

  lemma {:induction false} ParseFromSkips(s: string, i: nat, k: nat)
    requires i <= k <= |s|
    requires forall j :: i <= j < k ==> MatchAt(s, j).None?
    ensures ParseFrom(s, i) == ParseFrom(s, k)
    decreases k - i
  {
    if i < k {
      ParseFromSkips(s, i + 1, k);
    }
  }

  /** The parser returns exactly the leftmost tail match, and nothing when there is none. */
  lemma LeftmostMatch(s: string, k: nat)
    requires k < |s| && MatchAt(s, k).Some?
    requires forall j :: 0 <= j < k ==> MatchAt(s, j).None?
    ensures ParseEffectString(s) == MatchAt(s, k)
  {
    ParseFromSkips(s, 0, k);
  }

  lemma NoMatchNoBonus(s: string)
    requires forall k :: 0 <= k < |s| ==> MatchAt(s, k).None?
    ensures ParseEffectString(s).None?
  {
    ParseFromSkips(s, 0, |s|);
  }

  /** Conversely, a string with a tail match anywhere always yields a bonus. */
  lemma {:induction false} AnyMatchGivesBonus(s: string, i: nat, m: nat)
    requires i <= m < |s| && MatchAt(s, m).Some?
    ensures ParseFrom(s, i).Some?
    decreases m - i
  {
    if i < m && MatchAt(s, i).None? {
      AnyMatchGivesBonus(s, i + 1, m);
    }
  }

  lemma OccursFirst(s: string, w: string, k: nat)
    requires OccursAt(s, w, k) && |w| > 0
    ensures s[k] == w[0]
  {
    assert s[k..k + |w|][0] == w[0];
  }

  /** Every keyword starts with one of these three syllables. */
  lemma NotKeywordStart(s: string, k: nat)
    requires k < |s| && s[k] != '최' && s[k] != '공' && s[k] != '이'
    ensures MatchAt(s, k).None?
  {
    assert KW_MAX_HEALTH[0] == '최' && KW_MAX_AP[0] == '최';
    assert KW_ATTACK_DAMAGE[0] == '공' && KW_ATTACK_RANGE[0] == '공';
    assert KW_MOVE_SPEED[0] == '이';
    if OccursAt(s, KW_MAX_HEALTH, k) { OccursFirst(s, KW_MAX_HEALTH, k); }
    if OccursAt(s, KW_ATTACK_DAMAGE, k) { OccursFirst(s, KW_ATTACK_DAMAGE, k); }
    if OccursAt(s, KW_MOVE_SPEED, k) { OccursFirst(s, KW_MOVE_SPEED, k); }
    if OccursAt(s, KW_ATTACK_RANGE, k) { OccursFirst(s, KW_ATTACK_RANGE, k); }
    if OccursAt(s, KW_MAX_AP, k) { OccursFirst(s, KW_MAX_AP, k); }
  }

  // ----- the regular expression as written, prefix included -----

  /**
   * `(?:모든 유닛의\s*)?` tail at position `p`: the optional group is tried
   * first (greedy), then the empty alternative.
   */
  function RegexAt(s: string, p: nat): Option<StatMod>
  {
    if OccursAt(s, ALL_UNITS_PREFIX, p)
       && MatchAt(s, SkipSpaces(s, p + |ALL_UNITS_PREFIX|)).Some?
    then MatchAt(s, SkipSpaces(s, p + |ALL_UNITS_PREFIX|))
    else MatchAt(s, p)
  }

  /** `String.prototype.match` without the `g` flag: the leftmost position where the regex matches. */
  function RegexSearch(s: string, p: nat): Option<StatMod>
    decreases |s| - p
  {
    if p >= |s| then None
    else if RegexAt(s, p).Some? then RegexAt(s, p)
    else RegexSearch(s, p + 1)
  }

  /** No keyword starts inside the prefix text or inside a run of spaces. */
  lemma NoKeywordInPrefix(s: string, p: nat, j: nat)
    requires OccursAt(s, ALL_UNITS_PREFIX, p)
    requires p <= j < SkipSpaces(s, p + |ALL_UNITS_PREFIX|)
    ensures MatchAt(s, j).None?
  {
    var q := p + |ALL_UNITS_PREFIX|;
    if j < q {
      assert s[j] == s[p..q][j - p] == ALL_UNITS_PREFIX[j - p];
    } else {
      assert IsSpace(s[j]);
    }
    NotKeywordStart(s, j);
  }

  /**
   * The optional "all units'" prefix never changes what is captured: the
   * regex as written returns the same stat and value as the leftmost
   * keyword match.
   */
  lemma {:induction false} PrefixIsTransparent(s: string, p: nat)
    ensures RegexSearch(s, p) == ParseFrom(s, p)
    decreases |s| - p
  {
    if p < |s| {
      if OccursAt(s, ALL_UNITS_PREFIX, p) && MatchAt(s, SkipSpaces(s, p + |ALL_UNITS_PREFIX|)).Some? {
        var q := SkipSpaces(s, p + |ALL_UNITS_PREFIX|);
        forall j | p <= j < q ensures MatchAt(s, j).None? {
          NoKeywordInPrefix(s, p, j);
        }
        ParseFromSkips(s, p, q);
      } else if MatchAt(s, p).None? {
        PrefixIsTransparent(s, p + 1);
      }
    }
  }

  lemma RegexAgreesWithParser(s: string)
    ensures RegexSearch(s, 0) == ParseEffectString(s)
  {
    PrefixIsTransparent(s, 0);
  }

  // ----- the unit-specific pattern -----

  predicate IsWordSpaceOrComma(c: char)
  {
    IsWordChar(c) || IsSpace(c) || c == ','
  }

  /**
   * The second pattern `([\w\s,]+)\s*(keyword)\s*\+\s*(\d+)` matches: a non-empty
   * run of word/space/comma characters `[i, k)`, spaces `[k, m)`, then the tail.
   */
  predicate SpecificAt(s: string, i: nat, k: nat, m: nat)
  {
    i < k <= m < |s|
    && (forall j :: i <= j < k ==> IsWordSpaceOrComma(s[j]))
    && (forall j :: k <= j < m ==> IsSpace(s[j]))
    && MatchAt(s, m).Some?
  }

  ghost predicate SpecificPatternMatches(s: string)
  {
    exists i: nat, k: nat, m: nat :: SpecificAt(s, i, k, m)
  }

  /** Whatever the unit-specific pattern matches, the general pattern already matched, so its branch is dead. */
  lemma SpecificPatternIsSubsumed(s: string)
    requires SpecificPatternMatches(s)
    ensures ParseEffectString(s).Some?
  {
    var i: nat, k: nat, m: nat :| SpecificAt(s, i, k, m);
    AnyMatchGivesBonus(s, 0, m);
  }

  // ----- effect texts of the shipped catalogues -----

  /** "all units' max health +10" (basic armour research). */
  lemma ParsesAllUnitsMaxHealth()
    ensures ParseEffectString("모든 유닛의 최대 체력 +10") == Some(StatMod(MaxHealth, 10))
  {
    var s := "모든 유닛의 최대 체력 +10";
    forall j | 0 <= j < 7 ensures MatchAt(s, j).None? {
      NotKeywordStart(s, j);
    }
    assert OccursAt(s, KW_MAX_HEALTH, 7);
    assert DecimalValue("10") == 10 by {
      assert "10"[..1] == "1";
      assert DecimalValue("1") == 1 by { assert "1"[..0] == ""; }
    }
    assert s[14..16] == "10";
    assert KeywordAt(s, 7) == Some(MaxHealth);
    assert SkipSpaces(s, 13) == 13;
    assert SkipSpaces(s, 12) == 13;
    assert SkipSpaces(s, 14) == 14;
    assert DigitsEnd(s, 16) == 16;
    assert DigitsEnd(s, 14) == 16;
    assert MatchAt(s, 7) == Some(StatMod(MaxHealth, 10));
    LeftmostMatch(s, 7);
  }

  /** "move speed -1": a minus sign is not a bonus. */
  lemma PenaltyIsIgnored()
    ensures ParseEffectString("이동 속도 -1").None?
  {
    var s := "이동 속도 -1";
    assert OccursAt(s, KW_MOVE_SPEED, 0);
    forall j | 0 < j < |s| ensures MatchAt(s, j).None? {
      NotKeywordStart(s, j);
    }
    NoMatchNoBonus(s);
  }

  /** "accuracy +10%": not one of the five stats. */
  lemma AccuracyIsIgnored()
    ensures ParseEffectString("명중률 +10%").None?
  {
    var s := "명중률 +10%";
    forall j | 0 <= j < |s| ensures MatchAt(s, j).None? {
      NotKeywordStart(s, j);
    }
    NoMatchNoBonus(s);
  }
}
