/** Accepted names as paths: none leads out of the directory it belongs to, and no one-way switch is
    among the keys. */
module SafeNames {
  import opened Common
  import opened Json
  import opened Spellings
  import opened SysctlManifests
  import opened ManifestLoader
  import opened ManifestFacts
  import opened SettingGrammar
  import opened ExampleManifest
  import opened ExampleHost
  import P = ProductionProtocol

  /** Where a walk along these components leads from `at`: `..` goes up, which at the top goes nowhere. */
  function Walk(at: seq<string>, parts: seq<string>): seq<string>
    decreases |parts|
  {
    if parts == [] then at
    else if parts[0] in {"", "."} then Walk(at, parts[1..])
    else if parts[0] == ".." then Walk(if at == [] then [] else at[..|at| - 1], parts[1..])
    else Walk(at + [parts[0]], parts[1..])
  }

  lemma {:induction false} WalkDown(at: seq<string>, parts: seq<string>)
    requires ".." !in Components(parts)
    ensures Walk(at, parts) == at + Components(parts)
    decreases |parts|
  {
    if parts != [] {
      if parts[0] in {"", "."} {
        WalkDown(at, parts[1..]);
      } else {
        var rest := Components(parts[1..]);
        assert Components(parts) == [parts[0]] + rest && parts[0] in Components(parts);
        forall x | x in rest ensures x in Components(parts) {
        }
        WalkDown(at + [parts[0]], parts[1..]);
        assert at + [parts[0]] + rest == at + ([parts[0]] + rest);
      }
    } else {
      assert at + [] == at;
    }
  }

  lemma {:induction false} BelowDirectory(s: string)
    requires "etc/sysctl.d/" <= s
    ensures PathParts(s) == ["etc", "sysctl.d"] + PathParts(s[13..])
  {
    var rest := s[13..];
    assert s == DIRECTORY + ['/'] + rest;
    SplitConcat(DIRECTORY, rest, '/');
    ComponentsConcat(SplitOn(DIRECTORY, '/'), SplitOn(rest, '/'));
    DirectoryParts();
  }

  lemma {:induction false} DirectoryHasNoSuffix()
    ensures !HasConfSuffix(["etc", "sysctl.d"])
  {
    var name, suffix := "sysctl.d", ".conf";
    assert name[3..][4] == 'd' && suffix[4] == 'f';
  }

  /** An accepted target denotes a file with the suffix below the drop-in directory, also for who follows `..`. */
  lemma {:induction false} TargetStaysInside(s: string)
    requires IsTarget(s)
    ensures var at := Walk([], SplitOn(s, '/'));
            && |at| >= 3 && at[0] == "etc" && at[1] == "sysctl.d"
            && |at[|at| - 1]| > 5 && at[|at| - 1][|at[|at| - 1]| - 5..] == ".conf"
            && forall i :: 0 <= i < |at| ==> at[i] !in {"", ".", ".."} && '/' !in at[i] && '\0' !in s
  {
    var parts := PathParts(s);
    WalkDown([], SplitOn(s, '/'));
    assert [] + parts == parts;
    BelowDirectory(s);
    SplitParts(s);
    PlainComponents(SplitOn(s, '/'));
    DirectoryHasNoSuffix();
    assert PathParts(s[13..]) == [] ==> parts == ["etc", "sysctl.d"];
  }

  lemma {:induction false} OnePlainComponent(s: string)
    requires '/' !in s && s != "" && s[0] != '.'
    ensures Walk([], SplitOn(s, '/')) == [s] && s !in {"", ".", ".."}
  {
    SplitWithout(s, '/');
    OneComponent(s);
    assert ".."[0] == '.' && ".." !in [s];
    WalkDown([], [s]);
    assert [] + [s] == [s];
  }

  lemma {:induction false} BackupIdCharacters(s: string)
    requires P.IsBackupId(s)
    ensures '/' !in s && '\0' !in s && s != "" && s[0] != '.'
  {
    forall i | 0 <= i < |s| ensures s[i] != '/' && s[i] != '\0' {
      assert P.IsBackupChar(s[i]);
    }
  }

  lemma {:induction false} DoubledDot(a: string, b: string)
    ensures !P.IsBackupId(a + ".." + b)
  {
    var s := a + ".." + b;
    assert s[|a|] == '.' && s[|a| + 1] == '.';
    if |a| > 0 { assert s[|a| + 1 - 1] == s[|a| + 1]; }
  }

  /** A backup that a request can name, and one that the store takes, is one component and not a way up. */
  lemma {:induction false} BackupIdIsOneComponent(s: string)
    requires P.IsBackupId(s) || IsStoreId(s)
    ensures Walk([], SplitOn(s, '/')) == [s] && '/' !in s && '\0' !in s && s !in {"", ".", ".."}
    ensures P.IsBackupId(s) ==> forall a, b :: s != a + ".." + b
  {
    if P.IsBackupId(s) {
      forall a, b ensures s != a + ".." + b {
        DoubledDot(a, b);
      }
    }
    if P.IsBackupId(s) { BackupIdCharacters(s); } else { StoreIdCharacters(s); }
    OnePlainComponent(s);
  }

  lemma {:induction false} StoreIdCharacters(s: string)
    requires IsStoreId(s)
    ensures '/' !in s && '\0' !in s && s != "" && s[0] in {'b', 'r'}
  {
    var front := if "backup-" <= s then "backup-" else "recovery-";
    var n := if "backup-" <= s then 7 else 9;
    var rest := s[n..];
    assert s == front + rest && '/' !in front && '\0' !in front;
    forall i | 0 <= i < |rest| ensures rest[i] != '/' && rest[i] != '\0' {
      if i < 8 { assert P.IsHex(rest[i]); }
      else if i > 8 { assert P.IsHex(rest[i]) || rest[i] == '-'; }
    }
  }

  lemma {:induction false} SplitOfSeparated(parts: seq<string>)
    requires AreParts(parts, P.IsIdentifierChar)
    ensures SplitOn(Separated(parts, "."), '.') == parts
    decreases |parts|
  {
    SeparatedUnfolds(parts, ".");
    assert IsPart(parts[0], P.IsIdentifierChar);
    forall i | 0 <= i < |parts[0]| ensures parts[0][i] != '.' {
      assert P.IsIdentifierChar(parts[0][i]);
    }
    SplitWithout(parts[0], '.');
    if |parts| > 1 {
      forall i | 0 <= i < |parts[1..]| ensures IsPart(parts[1..][i], P.IsIdentifierChar) {
        assert IsPart(parts[i + 1], P.IsIdentifierChar);
      }
      SplitOfSeparated(parts[1..]);
      SplitConcat(parts[0], Separated(parts[1..], "."), '.');
      assert parts == [parts[0]] + parts[1..];
    }
  }

  /** The dots of an accepted key lead down two levels or more, through plain names only. */
  lemma {:induction false} KeyStaysInside(key: string)
    requires IsSysctlKey(key)
    ensures var parts := SplitOn(key, '.'); |parts| >= 2 && AreParts(parts, P.IsIdentifierChar)
  {
    KeyIff(key);
    var parts :| AreParts(parts, P.IsIdentifierChar) && |parts| >= 2 && P.IsLower(parts[0][0]) && key == Separated(parts, ".");
    SplitOfSeparated(parts);
  }

  /** The five groups of a UUID, in lower case, with version 1 to 5 and variant 8, 9, a or b. */
  ghost predicate IsUuid(s: string, groups: seq<string>) {
    && |groups| == 5 && s == groups[0] + "-" + groups[1] + "-" + groups[2] + "-" + groups[3] + "-" + groups[4]
    && |groups[0]| == 8 && |groups[1]| == |groups[2]| == |groups[3]| == 4 && |groups[4]| == 12
    && (forall i, c :: 0 <= i < 5 && c in groups[i] ==> c in "0123456789abcdef")
    && groups[2][0] in "12345" && groups[3][0] in "89ab"
  }

  lemma {:induction false} HexDigits(c: char)
    ensures P.IsHex(c) <==> c in "0123456789abcdef"
    ensures '1' <= c <= '5' <==> c in "12345"
    ensures c in {'8', '9', 'a', 'b'} <==> c in "89ab"
  {
    var digits := "0123456789abcdef";
    if P.IsHex(c) { assert digits[if c <= '9' then c as int - 48 else c as int - 87] == c; }
    if '1' <= c <= '5' { assert "12345"[c as int - 49] == c; }
  }

  lemma {:induction false} UuidAt(s: string, groups: seq<string>, i: nat)
    requires IsUuid(s, groups) && i < 36
    ensures |s| == 36 && s[14] == groups[2][0] && s[19] == groups[3][0]
    ensures if i in {8, 13, 18, 23} then s[i] == '-' else s[i] in "0123456789abcdef"
  {
    if i < 8 { assert s[i] in groups[0]; }
    else if 8 < i < 13 { assert s[i] == groups[1][i - 9]; }
    else if 13 < i < 18 { assert s[i] == groups[2][i - 14]; }
    else if 18 < i < 23 { assert s[i] == groups[3][i - 19]; }
    else if 23 < i { assert s[i] == groups[4][i - 24]; }
  }

  lemma {:induction false} IdHasGroups(s: string) returns (groups: seq<string>)
    requires P.IsRequestId(s)
    ensures IsUuid(s, groups)
  {
    groups := [s[..8], s[9..13], s[14..18], s[19..23], s[24..]];
    HexDigits(s[14]);
    HexDigits(s[19]);
    forall i, c | 0 <= i < 5 && c in groups[i] ensures c in "0123456789abcdef" {
      HexDigits(c);
    }
  }

  lemma {:induction false} UuidIsId(s: string, groups: seq<string>)
    requires IsUuid(s, groups)
    ensures P.IsRequestId(s)
  {
    forall i | 0 <= i < 36 ensures |s| == 36 && if i in {8, 13, 18, 23} then s[i] == '-' else P.IsHex(s[i]) {
      UuidAt(s, groups, i);
      HexDigits(s[i]);
    }
    UuidAt(s, groups, 0);
    HexDigits(s[14]);
    HexDigits(s[19]);
  }

  /** A request ID is one of these UUIDs, and nothing else is. */
  lemma {:induction false} RequestIdIff(s: string)
    ensures P.IsRequestId(s) <==> exists groups :: IsUuid(s, groups)
  {
    if P.IsRequestId(s) {
      var groups := IdHasGroups(s);
    }
    if groups :| IsUuid(s, groups) {
      UuidIsId(s, groups);
    }
  }

  /** No accepted manifest sets a key that cannot be set back. */
  lemma {:induction false} KeysCanBeSetBack(m: SysctlManifest, key: string)
    requires ValidManifest(m) && key in KeyList(m.modules)
    ensures key != "kernel.kexec_load_disabled" && key != "kernel.unprivileged_bpf_disabled"
  {
    var i, j := KeyComesFromModule(m.modules, key);
    assert ValidModule(m.modules[i]) && ValidSetting(m.modules[i].settings[j]);
  }
}
