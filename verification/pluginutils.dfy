/**
 * PluginUtils: how the plugin's settings become a FileHistoryDao.  The
 * maximum number of history entries is a string setting parsed with
 * Integer#valueOf; anything that does not parse means 0, no purging.
 */
module PluginUtils {
  import opened Options
  import opened FileTree
  import opened Revisions
  import opened HistoryDao

  const MinInt := -0x8000_0000
  const MaxInt := 0x7fff_ffff

  predicate InIntRange(v: int) {
    MinInt <= v <= MaxInt
  }

  /** Character#digit(c, 10) on ASCII: the digit's value, or -1. */
  function Digit(c: char): (d: int)
    ensures -1 <= d <= 9
    ensures d >= 0 <==> '0' <= c <= '9'
  {
    if '0' <= c <= '9' then c as int - '0' as int else -1
  }

  predicate AllDigits(s: string) {
    forall i | 0 <= i < |s| :: Digit(s[i]) >= 0
  }

  /** The value of a string of decimal digits, read left to right. */
  function DecimalValue(s: string): nat
    requires AllDigits(s)
    decreases |s|
  {
    if s == [] then 0 else DecimalValue(s[..|s| - 1]) * 10 + Digit(s[|s| - 1])
  }

  /**
   * Integer#valueOf(String), stated directly: an optional sign followed by
   * at least one decimal digit, whose value lies in the `int` range;
   * `None` stands for the NumberFormatException (null included).
   */
  function ValueOf(s: Option<string>): (r: Option<int>)
    ensures r.Some? ==> InIntRange(r.value)
    ensures r.Some? ==> s.Some? && |s.value| > 0
  {
    match s
    case None => None
    case Some(t) =>
      var signed := |t| > 0 && (t[0] == '-' || t[0] == '+');
      var ds := if signed then t[1..] else t;
      if ds == [] || !AllDigits(ds) then None
      else
        var v := if signed && t[0] == '-' then -(DecimalValue(ds) as int) else DecimalValue(ds);
        if InIntRange(v) then Some(v) else None
  }

  // ----- the JDK's parseInt loop -----

  /** Appending digits never lowers the value. */
  lemma {:induction false} DecimalValuePrefix(s: string, k: nat)
    requires AllDigits(s) && k <= |s|
    ensures AllDigits(s[..k]) && DecimalValue(s[..k]) <= DecimalValue(s)
    decreases |s|
  {
    if k < |s| {
      var init := s[..|s| - 1];
      assert init[..k] == s[..k];
      DecimalValuePrefix(init, k);
    } else {
      assert s[..k] == s;
    }
  }

  /** One more digit: the value of the longer prefix. */
  lemma DecimalValueStep(s: string, k: nat)
    requires k < |s| && AllDigits(s[..k + 1])
    ensures AllDigits(s[..k]) && DecimalValue(s[..k + 1]) == DecimalValue(s[..k]) * 10 + Digit(s[k])
  {
    assert s[..k + 1][..k] == s[..k];
  }

  /** The bound the magnitude may reach: `MaxInt`, or `-MinInt` for a negative number. */
  function Bound(negative: bool): nat {
    if negative then -MinInt else MaxInt
  }

  /**
   * Once the digits read so far already exceed the bound, the whole string
   * is out of range (or has a non-digit later on): Integer#valueOf throws.
   */
  lemma TooLarge(t: string, start: nat, k: nat, negative: bool)
    requires start == (if |t| > 0 && (t[0] == '-' || t[0] == '+') then 1 else 0)
    requires negative <==> start == 1 && t[0] == '-'
    requires start + k <= |t| && AllDigits(t[start..][..k]) && DecimalValue(t[start..][..k]) > Bound(negative)
    ensures ValueOf(Some(t)) == None
  {
    var ds := t[start..];
    if AllDigits(ds) {
      DecimalValuePrefix(ds, k);
    }
  }

  /** A non-digit after the sign makes Integer#valueOf throw. */
  lemma NotADigit(t: string, start: nat, i: nat)
    requires start == (if |t| > 0 && (t[0] == '-' || t[0] == '+') then 1 else 0)
    requires start <= i < |t| && Digit(t[i]) < 0
    ensures ValueOf(Some(t)) == None
  {
    assert t[start..][i - start] == t[i];
  }

  /**
   * Integer.parseInt(s, 10) as the JDK writes it: the value is built
   * negatively against `limit`, with the overflow checks against
   * `multmin` (Java's truncating `limit / 10`) and `limit + digit`.
   */
  method ParseInt(s: Option<string>) returns (r: Option<int>)
    ensures r == ValueOf(s)
  {
    if s.None? {
      return None;
    }
    var t := s.value;
    var len := |t|;
    if len == 0 {
      return None;
    }
    var negative := false;
    var limit := -MaxInt;
    var i := 0;
    var firstChar := t[0];
    if firstChar < '0' {
      if firstChar == '-' {
        negative := true;
        limit := MinInt;
      } else if firstChar != '+' {
        assert Digit(t[0]) < 0;
        return None;
      }
      if len == 1 {
        return None;
      }
      i := 1;
    }
    r := AccumulateDigits(t, i, negative, limit);
  }

  /**
   * The digit loop of Integer.parseInt, from index `start` (past the sign)
   * with the magnitude limit for the sign read.
   */
  method AccumulateDigits(t: string, start: nat, negative: bool, limit: int) returns (r: Option<int>)
    requires start == (if |t| > 0 && (t[0] == '-' || t[0] == '+') then 1 else 0) && start < |t|
    requires negative <==> start == 1 && t[0] == '-'
    requires limit + Bound(negative) == 0
    ensures r == ValueOf(Some(t))
  {
    var ds := t[start..];
    var multmin := -((-limit) / 10);
    assert multmin == -214748364;
    var result := 0;
    var i := start;
    while i < |t|
      invariant start <= i <= |t|
      invariant AllDigits(ds[..i - start])
      invariant result == -(DecimalValue(ds[..i - start]) as int)
      invariant limit <= result <= 0
    {
      var digit := Digit(t[i]);
      if digit < 0 {
        NotADigit(t, start, i);
        return None;
      }
      assert ds[i - start] == t[i];
      DecimalValueStep(ds, i - start);
      i := i + 1;
      if result < multmin {
        TooLarge(t, start, i - start, negative);
        return None;
      }
      result := result * 10;
      if result < limit + digit {
        TooLarge(t, start, i - start, negative);
        return None;
      }
      result := result - digit;
    }
    assert ds[..i - start] == ds;
    r := Some(if negative then result else -result);
  }

  /** valueOfStringOrDefault: the parsed value, or the default `x` when the string does not parse. */
  method ValueOfStringOrDefault(s: Option<string>, x: int) returns (r: int)
    ensures ValueOf(s).Some? ==> r == ValueOf(s).value
    ensures ValueOf(s).None? ==> r == x
  {
    var parsed := ParseInt(s);
    r := if parsed.Some? then parsed.value else x;
  }

  // ----- the strategy factory -----

  /** The plugin settings the factory reads. */
  datatype Settings = Settings(maxHistoryEntries: Option<string>, historyRoot: Path, skipDuplicateHistory: bool)

  /**
   * The factory's createFor: the DAO for `user` (`None` for null) on the
   * configured history root and JENKINS_HOME `home`.
   */
  method CreateFor(settings: Settings, home: string, user: Option<User>) returns (dao: Dao)
    ensures dao.historyRoot == settings.historyRoot && dao.jenkinsHome == home && dao.user == user
    ensures ValueOf(settings.maxHistoryEntries).Some? ==> dao.maxHistoryEntries == ValueOf(settings.maxHistoryEntries).value
    ensures ValueOf(settings.maxHistoryEntries).None? ==> dao.maxHistoryEntries == 0
    ensures dao.saveDuplicates <==> !settings.skipDuplicateHistory
  {
    var maxHistoryEntries := 0;
    var parsed := ParseInt(settings.maxHistoryEntries);
    if parsed.Some? {
      maxHistoryEntries := parsed.value;
    }
    dao := Dao(settings.historyRoot, home, user, maxHistoryEntries, !settings.skipDuplicateHistory);
  }

  /** getAnonymousHistoryDao: no user, so every descriptor records the anonymous pair. */
  method AnonymousDao(settings: Settings, home: string) returns (dao: Dao)
    ensures dao.user.None?
    ensures forall op, stamp :: MakeDescriptor(dao.user, op, stamp).user == AnonymousName &&
                                MakeDescriptor(dao.user, op, stamp).userId == AnonymousId
    ensures dao.historyRoot == settings.historyRoot && dao.jenkinsHome == home
    ensures ValueOf(settings.maxHistoryEntries).Some? ==> dao.maxHistoryEntries == ValueOf(settings.maxHistoryEntries).value
    ensures ValueOf(settings.maxHistoryEntries).None? ==> dao.maxHistoryEntries == 0
    ensures dao.saveDuplicates <==> !settings.skipDuplicateHistory
  {
    dao := CreateFor(settings, home, None);
  }

  // ----- printing and the round trip -----

  function DigitChar(d: int): char
    requires 0 <= d <= 9
  {
    ('0' as int + d) as char
  }

  /** The decimal digits of `n`, most significant first (Integer#toString of a non-negative value). */
  function ShowNat(n: nat): (s: string)
    ensures |s| > 0 && AllDigits(s)
    decreases n
  {
    if n < 10 then [DigitChar(n)] else ShowNat(n / 10) + [DigitChar(n % 10)]
  }

  /** Integer#toString. */
  function Show(n: int): string {
    if n < 0 then "-" + ShowNat(-n) else ShowNat(n)
  }

  lemma {:induction false} ShowNatValue(n: nat)
    ensures DecimalValue(ShowNat(n)) == n
    decreases n
  {
    var s := ShowNat(n);
    if n >= 10 {
      ShowNatValue(n / 10);
      assert s[..|s| - 1] == ShowNat(n / 10);
    }
  }

  /** Every `int`, printed in decimal, parses back to itself. */
  lemma ShowRoundTrip(n: int)
    requires InIntRange(n)
    ensures ValueOf(Some(Show(n))) == Some(n)
  {
    var m: nat := if n < 0 then -n else n;
    ShowNatValue(m);
    var s := Show(n);
    if n < 0 {
      assert s[1..] == ShowNat(m);
    } else {
      assert Digit(s[0]) >= 0;
    }
  }

  /** Digit strings by their value: the value of a prefix extended by one digit. */
  lemma DigitsValue(s: string, v: nat, c: char)
    requires AllDigits(s) && DecimalValue(s) == v && '0' <= c <= '9'
    ensures AllDigits(s + [c]) && DecimalValue(s + [c]) == v * 10 + Digit(c)
  {
    assert (s + [c])[..|s|] == s;
  }

  /** The edge cases of the int range: the largest value parses, one beyond it does not, nor does a lone sign. */
  lemma IntRangeEdges()
    ensures ValueOf(Some("2147483647")) == Some(MaxInt)
    ensures ValueOf(Some("-2147483648")) == Some(MinInt)
    ensures ValueOf(Some("2147483648")) == None
    ensures ValueOf(Some("+")) == None && ValueOf(Some("")) == None && ValueOf(None) == None
  {
    LeadingDigits();
    DigitsValue("214748364", 214748364, '7');
    DigitsValue("214748364", 214748364, '8');
    EdgeTexts();
  }

  /** The first nine digits of the int range's bounds. */
  lemma LeadingDigits()
    ensures AllDigits("214748364") && DecimalValue("214748364") == 214748364
  {
    var s0: string := "";
    DigitsValue(s0, 0, '2');
    var s1 := s0 + ['2'];
    DigitsValue(s1, 2, '1');
    var s2 := s1 + ['1'];
    DigitsValue(s2, 21, '4');
    var s3 := s2 + ['4'];
    DigitsValue(s3, 214, '7');
    var s4 := s3 + ['7'];
    DigitsValue(s4, 2147, '4');
    var s5 := s4 + ['4'];
    DigitsValue(s5, 21474, '8');
    var s6 := s5 + ['8'];
    DigitsValue(s6, 214748, '3');
    var s7 := s6 + ['3'];
    DigitsValue(s7, 2147483, '6');
    var s8 := s7 + ['6'];
    DigitsValue(s8, 21474836, '4');
    assert s8 + ['4'] == "214748364";
  }

  /** How the edge texts are put together. */
  lemma EdgeTexts()
    ensures "214748364" + ['7'] == "2147483647" && "214748364" + ['8'] == "2147483648"
    ensures "-2147483648"[1..] == "2147483648" && "-2147483648"[0] == '-'
  {
  }
}
