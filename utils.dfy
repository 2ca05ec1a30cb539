/**
 * Typed readers over the global key-value settings table: `get_setting_int`
 * and `get_setting_bool`. The table is passed in as a map from key to the
 * stored string.
 */
module Utils {
  import opened Wrappers
  import opened Text

  type Settings = map<string, string>

  /** `get_setting_int`: the stored value as an integer, or `default` when absent or not an integer literal. */
  function GetSettingInt(settings: Settings, key: string, default: int): int
  {
    if key !in settings then default
    else match ParseInt(settings[key])
      case None => default
      case Some(v) => v
  }

  /** ASCII `str.lower()`. */
  function Lower(s: string): (r: string)
    ensures |r| == |s|
    ensures forall i :: 0 <= i < |s| && !('A' <= s[i] <= 'Z') ==> r[i] == s[i]
  {
    if s == [] then []
    else [if 'A' <= s[0] <= 'Z' then (s[0] as int + 32) as char else s[0]] + Lower(s[1..])
  }

  /** `get_setting_bool`: `default` when absent, otherwise whether the lower-cased value is "true". */
  function GetSettingBool(settings: Settings, key: string, default: bool): bool
  {
    if key !in settings then default else Lower(settings[key]) == "true"
  }

  /** Without a stored value both readers fall back to their default. */
  lemma {:induction false} AbsentKeyGivesDefault(settings: Settings, key: string, n: int, b: bool)
    requires key !in settings
    ensures GetSettingInt(settings, key, n) == n
    ensures GetSettingBool(settings, key, b) == b
  {
  }

  /** A number written with `str(n)` (as the admin settings endpoint stores it) reads back as `n`. */
  lemma {:induction false} StoredIntReadsBack(settings: Settings, key: string, n: int, default: int)
    ensures GetSettingInt(settings[key := IntToString(n)], key, default) == n
  {
    ParseIntToString(n);
  }

  /** A parse needs a digit: a stored value without any decimal digit reads as the default. */
  lemma {:induction false} NonNumericGivesDefault(settings: Settings, key: string, default: int)
    requires key in settings
    requires forall i :: 0 <= i < |settings[key]| ==> !IsDigit(settings[key][i])
    ensures GetSettingInt(settings, key, default) == default
  {
    var s := settings[key];
    var t := Strip(s);
    var k := LeadingSpace(s);
    assert forall i :: 0 <= i < |t| ==> t[i] == s[k + i];
    if |t| > 0 && (t[0] == '+' || t[0] == '-') {
      assert !IsDigitRun(t[1..]) by {
        if |t| > 1 { assert t[1..][0] == s[k + 1]; }
      }
    } else {
      assert !IsDigitRun(t) by {
        if |t| > 0 { assert t[0] == s[k]; }
      }
    }
  }

  /** The boolean reader is true exactly for "true" in any mix of ASCII letter cases. */
  lemma {:induction false} BoolIsCaseInsensitiveTrue(settings: Settings, key: string, default: bool)
    requires key in settings
    ensures var v := settings[key];
      GetSettingBool(settings, key, default) <==>
        (&& |v| == 4
         && (v[0] == 't' || v[0] == 'T') && (v[1] == 'r' || v[1] == 'R')
         && (v[2] == 'u' || v[2] == 'U') && (v[3] == 'e' || v[3] == 'E'))
  {
    var v := settings[key];
    if |v| == 4 {
      assert Lower(v) == [Lower(v)[0], Lower(v)[1], Lower(v)[2], Lower(v)[3]];
      assert Lower(v)[0] == (if 'A' <= v[0] <= 'Z' then (v[0] as int + 32) as char else v[0]);
      assert Lower(v[1..])[0] == (if 'A' <= v[1] <= 'Z' then (v[1] as int + 32) as char else v[1]);
      assert Lower(v[2..])[0] == (if 'A' <= v[2] <= 'Z' then (v[2] as int + 32) as char else v[2]);
      assert Lower(v[3..])[0] == (if 'A' <= v[3] <= 'Z' then (v[3] as int + 32) as char else v[3]);
      assert v[1..][1..] == v[2..];
      assert v[2..][1..] == v[3..];
    }
  }

  /** The examples that matter: "True" switches a flag on, "1" and "yes" do not. */
  lemma {:induction false} BoolExamples(settings: Settings, key: string, default: bool)
    ensures GetSettingBool(settings[key := "True"], key, default)
    ensures !GetSettingBool(settings[key := "1"], key, default)
    ensures !GetSettingBool(settings[key := "yes"], key, default)
  {
    BoolIsCaseInsensitiveTrue(settings[key := "True"], key, default);
    BoolIsCaseInsensitiveTrue(settings[key := "1"], key, default);
    BoolIsCaseInsensitiveTrue(settings[key := "yes"], key, default);
  }
}
