/** The shop record of models/Shop.js and the shop code its pre-validate hook generates:
    up to three letters of the name, the clock's milliseconds modulo 1000 on three digits, and
    a random two-digit number. The clock and `Math.random()` are parameters. */
module ShopModel {
  import opened Basics

  datatype Shop = Shop(shopName: string, shopCode: string, phone: string, address: string)

  /** `new Shop({ shopName, phone, address })`: texts trimmed, no code yet. */
  function NewShop(shopName: string, phone: string, address: string): Shop
  {
    Shop(Trim(shopName), "", Trim(phone), Trim(address))
  }

  /** What `save()` accepts (after the hook has run). */
  predicate ValidShop(s: Shop)
  {
    s.shopName != "" && s.shopCode != ""
  }

  predicate IsCodeChar(c: char)
  {
    IsUpper(c) || IsDigit(c)
  }

  /** `shopName.replace(/[^a-zA-Z]/g, '').substring(0, 3).toUpperCase()`. */
  function CodePrefix(name: string): (r: string)
    ensures |r| == (if |LettersOnly(name)| < 3 then |LettersOnly(name)| else 3)
    ensures forall i :: 0 <= i < |r| ==> IsUpper(r[i]) && r[i] == UpperChar(LettersOnly(name)[i])
  {
    var letters := LettersOnly(name);
    var r := ToUpper(if |letters| < 3 then letters else letters[..3]);
    assert forall i :: 0 <= i < |r| ==> IsUpper(UpperChar(letters[i]));
    r
  }

  /** `(Date.now() % 1000).toString().padStart(3, '0')`. */
  function TimePart(now: nat): (r: string)
    ensures |r| == 3 && AllDigits(r)
    ensures DecimalValue(r) == now % 1000
  {
    var n := Decimal(now % 1000);
    DecimalWidth(now % 1000);
    var r := PadStart3(n);
    assert r == r[..3 - |n|] + n;
    DecimalRoundTrip(now % 1000);
    LeadingZeros(r[..3 - |n|], n);
    r
  }

  /** Zeros in front of a numeral do not change its value. */
  lemma {:induction false} LeadingZeros(z: string, s: string)
    requires forall i :: 0 <= i < |z| ==> z[i] == '0'
    requires AllDigits(s)
    ensures AllDigits(z + s) && DecimalValue(z + s) == DecimalValue(s)
  {
    if s == [] {
      assert z + s == z;
      ZerosValue(z);
    } else {
      LeadingZeros(z, s[..|s| - 1]);
      assert (z + s)[..|z + s| - 1] == z + s[..|s| - 1];
    }
  }

  lemma {:induction false} ZerosValue(z: string)
    requires forall i :: 0 <= i < |z| ==> z[i] == '0'
    ensures AllDigits(z) && DecimalValue(z) == 0
  {
    if z != [] {
      ZerosValue(z[..|z| - 1]);
    }
  }

  /** `Math.floor(10 + Math.random() * 90)` for a random number in [0, 1). */
  function RandPart(random: real): (r: int)
    requires 0.0 <= random < 1.0
    ensures 10 <= r <= 99
  {
    (10.0 + random * 90.0).Floor
  }

  /** `prefix + timePart + randPart`. */
  function GenerateCode(name: string, now: nat, random: real): (r: string)
    requires 0.0 <= random < 1.0
    ensures 5 <= |r| <= 8 && |r| == |CodePrefix(name)| + 5
    ensures forall i :: 0 <= i < |r| ==> IsCodeChar(r[i])
    ensures var p := |CodePrefix(name)|;
            && r[..p] == CodePrefix(name)
            && AllDigits(r[p..p + 3]) && DecimalValue(r[p..p + 3]) == now % 1000
            && AllDigits(r[p + 3..]) && 10 <= DecimalValue(r[p + 3..]) <= 99
  {
    var prefix, time, rand := CodePrefix(name), TimePart(now), RandPart(random);
    DecimalWidth(rand);
    DecimalRoundTrip(rand);
    var r := prefix + time + Decimal(rand);
    assert r[..|prefix|] == prefix;
    assert r[|prefix|..|prefix| + 3] == time;
    assert r[|prefix| + 3..] == Decimal(rand);
    r
  }

  /** The pre-validate hook: a shop without a code gets a generated one; a shop that has one
      keeps it. */
  function PreValidate(s: Shop, now: nat, random: real): (r: Shop)
    requires 0.0 <= random < 1.0
    ensures r.shopCode != ""
    ensures s.shopCode != "" ==> r == s
    ensures s.shopCode == "" ==> r.shopCode == GenerateCode(s.shopName, now, random)
    ensures r.shopName == s.shopName && r.phone == s.phone && r.address == s.address
  {
    if s.shopCode == "" then s.(shopCode := GenerateCode(s.shopName, now, random)) else s
  }

  /** Running the hook again, at any other time, changes nothing: a code is generated once. */
  lemma PreValidateOnce(s: Shop, now: nat, random: real, later: nat, random2: real)
    requires 0.0 <= random < 1.0 && 0.0 <= random2 < 1.0
    ensures PreValidate(PreValidate(s, now, random), later, random2) == PreValidate(s, now, random)
  {
  }

  /** The `uppercase` and `trim` setters leave a generated code as it is. */
  lemma CodeSettersKeep(name: string, now: nat, random: real)
    requires 0.0 <= random < 1.0
    ensures ToUpper(GenerateCode(name, now, random)) == GenerateCode(name, now, random)
    ensures Trim(GenerateCode(name, now, random)) == GenerateCode(name, now, random)
  {
    CodeCharsKept(GenerateCode(name, now, random));
  }

  lemma CodeCharsKept(c: string)
    requires |c| > 0 && forall i :: 0 <= i < |c| ==> IsCodeChar(c[i])
    ensures ToUpper(c) == c && Trim(c) == c
  {
    UpperKept(c);
    TrimKeeps(c);
  }

  lemma UpperKept(c: string)
    requires forall i :: 0 <= i < |c| ==> IsCodeChar(c[i])
    ensures ToUpper(c) == c
  {
    forall i | 0 <= i < |c|
      ensures ToUpper(c)[i] == c[i]
    {
      assert !IsLower(c[i]);
    }
  }

  /** `code.trim().toUpperCase()`: how a code typed by a user is looked up. */
  function NormalizeCode(code: string): string
  {
    ToUpper(Trim(code))
  }

  /** A generated code is found by its own normalised form. */
  lemma GeneratedCodeNormal(name: string, now: nat, random: real)
    requires 0.0 <= random < 1.0
    ensures NormalizeCode(GenerateCode(name, now, random)) == GenerateCode(name, now, random)
  {
    CodeSettersKeep(name, now, random);
  }
}
