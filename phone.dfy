/**
 * Phone canonicalisation: separators are removed, then a fixed, ordered table
 * of prefix rules rewrites French national numbers into the international
 * `+33…` form. The first rule whose prefix matches wins; a number no rule
 * matches is left as it is.
 */
module Phone {
  import opened Text

  /** The characters the cleaning step removes: whitespace, `-` and `.`. */
  predicate IsPhoneSeparator(c: char)
  {
    IsJsWhitespace(c) || c == '-' || c == '.'
  }

  /**
   * The cleaning step: whitespace, then `-`, then `.` removed, in three
   * passes. The result is the input with exactly the separators deleted.
   */
  function CleanPhone(phone: string): (r: string)
    ensures r == RemoveWhere(phone, IsPhoneSeparator)
    ensures forall i :: 0 <= i < |r| ==> !IsPhoneSeparator(r[i])
  {
    var isDash := (c: char) => c == '-';
    var isDot := (c: char) => c == '.';
    var isSpaceOrDash := (c: char) => IsJsWhitespace(c) || c == '-';
    var noSpace := RemoveWhere(phone, IsJsWhitespace);
    var noDash := RemoveWhere(noSpace, isDash);
    RemoveWhereTwice(phone, IsJsWhitespace, isDash, isSpaceOrDash);
    RemoveWhereTwice(phone, isSpaceOrDash, isDot, IsPhoneSeparator);
    RemoveWhere(noDash, isDot)
  }

  /** Cleaning an already clean number changes nothing. */
  lemma CleanPhoneOfClean(phone: string)
    requires forall i :: 0 <= i < |phone| ==> !IsPhoneSeparator(phone[i])
    ensures CleanPhone(phone) == phone
  {
    RemoveWhereNoop(phone, IsPhoneSeparator);
  }

  /**
   * The prefix rewriting, as the chain of tests it is: `33…` gains a `+`,
   * `00…` has the two zeros replaced by `+`, a national `0d…` (d one of
   * 1-7, 9) has its trunk `0` replaced by `+33`, and a bare mobile `6…`
   * gains `+33`. Everything else, `08…` and `+…` included, is unchanged.
   */
  function AddPlus(phone: string): (r: string)
    ensures r == phone || (|r| > 0 && r[0] == '+')
    ensures |phone| > 0 && phone[0] == '+' ==> r == phone
    ensures forall i :: 0 <= i < |r| ==> r[i] in phone || r[i] == '+' || r[i] == '3'
  {
    if StartsWith(phone, "33") then "+" + phone
    else if StartsWith(phone, "00") then "+" + phone[2..]
    else if StartsWith(phone, "01") then "+33" + phone[1..]
    else if StartsWith(phone, "02") then "+33" + phone[1..]
    else if StartsWith(phone, "03") then "+33" + phone[1..]
    else if StartsWith(phone, "04") then "+33" + phone[1..]
    else if StartsWith(phone, "05") then "+33" + phone[1..]
    else if StartsWith(phone, "06") then "+33" + phone[1..]
    else if StartsWith(phone, "07") then "+33" + phone[1..]
    else if StartsWith(phone, "09") then "+33" + phone[1..]
    else if StartsWith(phone, "6") then "+33" + phone
    else phone
  }

  /**
   * One rewriting rule: a number that starts with `prefix` becomes `lead`
   * followed by the number without its first `drop` characters.
   */
  datatype PrefixRule = PrefixRule(prefix: string, drop: nat, lead: string)

  /** The rewriting rules as a table, in the order they are tried. */
  const FrenchRules: seq<PrefixRule> := [
    PrefixRule("33", 0, "+"),
    PrefixRule("00", 2, "+"),
    PrefixRule("01", 1, "+33"),
    PrefixRule("02", 1, "+33"),
    PrefixRule("03", 1, "+33"),
    PrefixRule("04", 1, "+33"),
    PrefixRule("05", 1, "+33"),
    PrefixRule("06", 1, "+33"),
    PrefixRule("07", 1, "+33"),
    PrefixRule("09", 1, "+33"),
    PrefixRule("6", 0, "+33")
  ]

  /**
   * Every rule drops no more than its prefix, no prefix starts with `+` and
   * every rewritten number starts with `+`.
   */
  predicate WellFormedRules(rules: seq<PrefixRule>)
  {
    forall i :: 0 <= i < |rules| ==>
      && rules[i].drop <= |rules[i].prefix|
      && |rules[i].prefix| > 0 && rules[i].prefix[0] != '+'
      && |rules[i].lead| > 0 && rules[i].lead[0] == '+'
  }

  /** First-match application of a rule table. */
  function ApplyFirstRule(rules: seq<PrefixRule>, phone: string): string
    requires WellFormedRules(rules)
    decreases |rules|
  {
    if rules == [] then phone
    else if StartsWith(phone, rules[0].prefix) then rules[0].lead + phone[rules[0].drop..]
    else ApplyFirstRule(rules[1..], phone)
  }

  lemma FrenchRulesWellFormed()
    ensures WellFormedRules(FrenchRules)
  {
  }

  /** The chain of tests is the first-match application of the table. */
  lemma AddPlusMatchesTable(phone: string)
    ensures WellFormedRules(FrenchRules)
    ensures AddPlus(phone) == ApplyFirstRule(FrenchRules, phone)
  {
    var rs := FrenchRules;
    FrenchRulesWellFormed();
    assert rs[1..][1..][1..][1..][1..][1..][1..][1..][1..][1..][1..] == [];
  }

  /** A table application either leaves the number alone or yields a number starting with `+`. */
  lemma {:induction false} ApplyFirstRuleShape(rules: seq<PrefixRule>, phone: string)
    requires WellFormedRules(rules)
    ensures var r := ApplyFirstRule(rules, phone); r == phone || (|r| > 0 && r[0] == '+')
    decreases |rules|
  {
    if rules != [] && !StartsWith(phone, rules[0].prefix) {
      ApplyFirstRuleShape(rules[1..], phone);
    }
  }

  /** No rule of a well-formed table matches a number that starts with `+`. */
  lemma {:induction false} ApplyFirstRuleKeepsPlus(rules: seq<PrefixRule>, phone: string)
    requires WellFormedRules(rules)
    requires |phone| > 0 && phone[0] == '+'
    ensures ApplyFirstRule(rules, phone) == phone
    decreases |rules|
  {
    if rules != [] {
      if |rules[0].prefix| <= |phone| {
        assert phone[..|rules[0].prefix|][0] == phone[0];
      }
      ApplyFirstRuleKeepsPlus(rules[1..], phone);
    }
  }

  /** Applying a well-formed table twice is applying it once. */
  lemma ApplyFirstRuleIdempotent(rules: seq<PrefixRule>, phone: string)
    requires WellFormedRules(rules)
    ensures ApplyFirstRule(rules, ApplyFirstRule(rules, phone)) == ApplyFirstRule(rules, phone)
  {
    var r := ApplyFirstRule(rules, phone);
    ApplyFirstRuleShape(rules, phone);
    if r != phone {
      ApplyFirstRuleKeepsPlus(rules, r);
    }
  }

  /** Rewriting an already rewritten number changes nothing. */
  lemma AddPlusIdempotent(phone: string)
    ensures AddPlus(AddPlus(phone)) == AddPlus(phone)
  {
    AddPlusMatchesTable(phone);
    AddPlusMatchesTable(AddPlus(phone));
    ApplyFirstRuleIdempotent(FrenchRules, phone);
  }

  /** The whole per-value phone transformation: clean, then rewrite the prefix. */
  function NormalizePhone(phone: string): (r: string)
    ensures forall i :: 0 <= i < |r| ==> !IsPhoneSeparator(r[i])
  {
    var clean := CleanPhone(phone);
    var r := AddPlus(clean);
    assert forall i :: 0 <= i < |r| ==> !IsPhoneSeparator(r[i]) by {
      forall i | 0 <= i < |r|
        ensures !IsPhoneSeparator(r[i])
      {
        if r[i] != '+' && r[i] != '3' {
          var k :| 0 <= k < |clean| && clean[k] == r[i];
        }
      }
    }
    r
  }

  /** Normalising an already normalised number changes nothing. */
  lemma NormalizePhoneIdempotent(phone: string)
    ensures NormalizePhone(NormalizePhone(phone)) == NormalizePhone(phone)
  {
    var once := NormalizePhone(phone);
    CleanPhoneOfClean(once);
    AddPlusIdempotent(CleanPhone(phone));
  }

  /** Worked cases of the prefix table. */
  lemma AddPlusInternationalExample()
    ensures AddPlus("0033612345678") == "+33612345678"
  {
    var p := "0033612345678";
    assert p[..2] == "00" && p[..2] != "33";
    assert p[2..] == "33612345678";
  }

  lemma AddPlusTrunkExample()
    ensures AddPlus("0123456789") == "+33123456789"
  {
    var p := "0123456789";
    assert p[..2] == "01" && p[..2] != "33" && p[..2] != "00";
    assert p[1..] == "123456789";
  }

  lemma AddPlusMobileExample()
    ensures AddPlus("612345678") == "+33612345678"
  {
    var p := "612345678";
    assert p[..2] == "61";
    assert p[..1] == "6";
  }

  lemma AddPlusUnchangedExample()
    ensures AddPlus("0812345678") == "0812345678"
  {
    var p := "0812345678";
    assert p[..2] == "08";
    assert p[..1] == "0";
  }
}
