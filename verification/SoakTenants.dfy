// Which tenants a soak run creates, and which tenants its cleanup selects.
module SoakTenants {
  import opened Decimal

  predicate IsBase36(c: char) { '0' <= c <= '9' || 'a' <= c <= 'z' }

  predicate IsHex(c: char) { '0' <= c <= '9' || 'a' <= c <= 'f' }

  // /^soak_[a-z0-9]+_[a-f0-9]+$/
  ghost predicate IsRunPrefix(prefix: string) {
    exists time, nonce ::
      && prefix == "soak_" + time + "_" + nonce
      && time != "" && (forall i :: 0 <= i < |time| ==> IsBase36(time[i]))
      && nonce != "" && (forall i :: 0 <= i < |nonce| ==> IsHex(nonce[i]))
  }

  predicate AllDigits(s: string) {
    s != "" && forall i :: 0 <= i < |s| ==> IsDigit(s[i])
  }

  // tenantPattern: ^<prefix>_[0-9]+$
  predicate Selects(prefix: string, tenant: string) {
    |tenant| > |prefix| && tenant[..|prefix|] == prefix && tenant[|prefix|] == '_' && AllDigits(tenant[|prefix| + 1..])
  }

  const MAX_TENANT := 63

  // `soak_${runTag}_${index}`.slice(0, 63), where the prefix is soak_ and the tag.
  function WindowTenant(prefix: string, index: nat): string {
    var whole := prefix + "_" + Numeral(index);
    if |whole| <= MAX_TENANT then whole else whole[..MAX_TENANT]
  }

  // The cleanup of a run selects every tenant of the run exactly when the cut
  // leaves at least one digit of the window index.
  lemma CleanupSelectsOwnTenants(prefix: string, index: nat)
    ensures Selects(prefix, WindowTenant(prefix, index)) <==> |prefix| + 2 <= MAX_TENANT
  {
    var digits := Numeral(index);
    var whole := prefix + "_" + digits;
    var tenant := WindowTenant(prefix, index);
    assert forall i :: 0 <= i < |digits| ==> digits[i] in digits;
    assert tenant == whole[..|tenant|];
    if |prefix| + 2 <= |tenant| {
      assert tenant[..|prefix|] == prefix;
      assert tenant[|prefix|] == '_';
      assert tenant[|prefix| + 1..] == digits[..|tenant| - |prefix| - 1];
    }
  }

  // What the cleanup of a run selects depends on the prefix alone: everything
  // before the last underscore. No tenant is selected by two runs.
  lemma NoTenantOfTwoRuns(p: string, q: string, tenant: string)
    requires Selects(p, tenant) && Selects(q, tenant)
    ensures p == q
  {
    LastUnderscore(p, tenant);
    LastUnderscore(q, tenant);
  }

  lemma LastUnderscore(prefix: string, tenant: string)
    requires Selects(prefix, tenant)
    ensures |prefix| < |tenant| && tenant[|prefix|] == '_' && tenant[..|prefix|] == prefix
    ensures forall i :: |prefix| < i < |tenant| ==> tenant[i] != '_'
  {
    forall i | |prefix| < i < |tenant| ensures tenant[i] != '_' {
      assert tenant[i] == tenant[|prefix| + 1..][i - |prefix| - 1];
    }
  }

  // Tenants of different windows of a run stay apart as long as the cut does
  // not shorten them.
  lemma WindowsStayApart(prefix: string, i: nat, j: nat)
    requires |prefix| + 1 + |Numeral(i)| <= MAX_TENANT && |prefix| + 1 + |Numeral(j)| <= MAX_TENANT
    requires WindowTenant(prefix, i) == WindowTenant(prefix, j)
    ensures i == j
  {
    assert (prefix + "_" + Numeral(i))[|prefix| + 1..] == Numeral(i);
    assert (prefix + "_" + Numeral(j))[|prefix| + 1..] == Numeral(j);
    NumeralInjective(i, j);
  }

  function Underscores(s: string): nat {
    if s == "" then 0 else Underscores(s[..|s| - 1]) + if s[|s| - 1] == '_' then 1 else 0
  }

  lemma {:induction false} UnderscoresConcat(a: string, b: string)
    ensures Underscores(a + b) == Underscores(a) + Underscores(b)
  {
    if b == "" {
      assert a + b == a;
    } else {
      UnderscoresConcat(a, b[..|b| - 1]);
      assert (a + b)[..|a + b| - 1] == a + b[..|b| - 1];
    }
  }

  lemma {:induction false} NoUnderscores(s: string)
    requires forall i :: 0 <= i < |s| ==> s[i] != '_'
    ensures Underscores(s) == 0
  {
    if s != "" {
      NoUnderscores(s[..|s| - 1]);
    }
  }

  lemma OneUnderscore()
    ensures Underscores("_") == 1
  {
    assert "_"[..0] == "";
  }

  lemma SoakHasOne()
    ensures Underscores("soak_") == 1
  {
    UnderscoresConcat("soak", "_");
    NoUnderscores("soak");
    OneUnderscore();
    assert "soak" + "_" == "soak_";
  }

  lemma PartsHaveTwo(time: string, nonce: string)
    requires Underscores(time) == 0 && Underscores(nonce) == 0
    ensures Underscores("soak_" + time + "_" + nonce) == 2
  {
    var soak := "soak_";
    SoakHasOne();
    OneUnderscore();
    UnderscoresConcat(soak, time);
    UnderscoresConcat(soak + time, "_");
    UnderscoresConcat(soak + time + "_", nonce);
  }

  lemma RunPrefixHasTwo(prefix: string)
    ensures IsRunPrefix(prefix) ==> Underscores(prefix) == 2
  {
    if IsRunPrefix(prefix) {
      var time, nonce :|
        && prefix == "soak_" + time + "_" + nonce
        && time != "" && (forall i :: 0 <= i < |time| ==> IsBase36(time[i]))
        && nonce != "" && (forall i :: 0 <= i < |nonce| ==> IsHex(nonce[i]));
      NoUnderscores(time);
      NoUnderscores(nonce);
      PartsHaveTwo(time, nonce);
    }
  }

  // A tenant the cleanup selects has one underscore more than the prefix, and
  // it is not the last character.
  lemma SelectedHasOneMore(prefix: string, tenant: string)
    requires Selects(prefix, tenant)
    ensures Underscores(tenant) == Underscores(prefix) + 1 && tenant[|tenant| - 1] != '_'
  {
    var digits := tenant[|prefix| + 1..];
    assert tenant == prefix + "_" + digits;
    UnderscoresConcat(prefix + "_", digits);
    UnderscoresConcat(prefix, "_");
    NoUnderscores(digits);
    assert "_"[..0] == "";
    assert tenant[|tenant| - 1] == digits[|digits| - 1];
  }

  lemma CutPrefix(prefix: string, tenant: string)
    requires |tenant| <= |prefix| && prefix[..|tenant|] == tenant
    ensures Underscores(tenant) <= Underscores(prefix)
  {
    assert prefix == tenant + prefix[|tenant|..];
    UnderscoresConcat(tenant, prefix[|tenant|..]);
  }

  // A tenant without room for a digit is part of its prefix, or ends with an
  // underscore.
  lemma CutTenant(prefix: string, index: nat)
    requires |prefix| + 2 > MAX_TENANT
    ensures var tenant := WindowTenant(prefix, index);
            tenant != "" && (tenant[|tenant| - 1] == '_' || Underscores(tenant) <= Underscores(prefix))
  {
    var whole := prefix + "_" + Numeral(index);
    var tenant := WindowTenant(prefix, index);
    assert tenant == whole[..MAX_TENANT];
    if |prefix| >= MAX_TENANT {
      assert tenant == prefix[..MAX_TENANT];
      CutPrefix(prefix, tenant);
    }
  }

  // So the cleanup of one run never selects a tenant of another: for valid run
  // prefixes not even one that was cut, and for any others none with room for
  // a digit.
  lemma OtherRunsUntouched(p: string, q: string, index: nat)
    requires p != q
    ensures (IsRunPrefix(p) && IsRunPrefix(q)) || |q| + 2 <= MAX_TENANT ==> !Selects(p, WindowTenant(q, index))
  {
    var tenant := WindowTenant(q, index);
    if Selects(p, tenant) {
      if |q| + 2 <= MAX_TENANT {
        CleanupSelectsOwnTenants(q, index);
        NoTenantOfTwoRuns(p, q, tenant);
      } else {
        RunPrefixHasTwo(p);
        RunPrefixHasTwo(q);
        SelectedHasOneMore(p, tenant);
        CutTenant(q, index);
      }
    }
  }

  // The prefix of a generated run tag is one the cleanup accepts, unless the
  // random part came out empty.
  lemma GeneratedPrefixAccepted(time: string, nonce: string)
    requires time != "" && forall i :: 0 <= i < |time| ==> IsBase36(time[i])
    requires forall i :: 0 <= i < |nonce| ==> IsHex(nonce[i])
    ensures IsRunPrefix("soak_" + time + "_" + nonce) <==> nonce != ""
  {
    var prefix := "soak_" + time + "_" + nonce;
    if nonce == "" {
      assert prefix[|prefix| - 1] == '_';
      forall t: string, n: string | n != "" && prefix == "soak_" + t + "_" + n
        ensures !IsHex(n[|n| - 1])
      {
        assert prefix[|prefix| - 1] == n[|n| - 1];
      }
    }
  }

  // A selected tenant is the prefix, an underscore and one or more of ten digits.
  lemma SelectsMeans(prefix: string, tenant: string)
    ensures Selects(prefix, tenant) <==>
              exists digits ::
                tenant == prefix + "_" + digits && digits != "" && forall c :: c in digits ==> c in "0123456789"
  {
    if Selects(prefix, tenant) {
      var digits := tenant[|prefix| + 1..];
      assert tenant == prefix + "_" + digits;
      forall c | c in digits ensures c in "0123456789" {
        DigitsAre(c);
      }
    }
    if digits :| tenant == prefix + "_" + digits && digits != "" && forall c :: c in digits ==> c in "0123456789" {
      assert tenant[..|prefix|] == prefix && tenant[|prefix| + 1..] == digits;
      forall i | 0 <= i < |digits| ensures IsDigit(digits[i]) {
        DigitsAre(digits[i]);
      }
    }
  }

  lemma DigitsAre(c: char)
    ensures IsDigit(c) <==> c in "0123456789"
  {
    assert IsDigit(c) ==> c == "0123456789"[c as int - 48];
  }

  // The characters of the two parts of a run tag.
  lemma HexDigitsAre(c: char)
    ensures IsHex(c) <==> c in "0123456789" || c in "abcdef"
  {
    DigitsAre(c);
    assert 'a' <= c <= 'f' ==> c == "abcdef"[c as int - 97];
  }

  lemma Base36DigitsAre(c: char)
    ensures IsBase36(c) <==> c in "0123456789" || c in "abcdefghijklmnopqrstuvwxyz"
  {
    DigitsAre(c);
    assert 'a' <= c <= 'z' ==> c == "abcdefghijklmnopqrstuvwxyz"[c as int - 97];
  }
}
