/** Packing of the four fields of a SteamID into one 64-bit word (steamid/steamid_bits.go). */
module SteamIdBits {
  import opened Integers
  import opened Words

  type SteamID = uint64

  const WORD := 0x1_0000_0000_0000_0000
  const TWO20 := 0x10_0000
  const TWO52 := 0x10_0000_0000_0000
  const TWO56 := 0x100_0000_0000_0000
  const TWO60 := 0x1000_0000_0000_0000

  const ACCOUNT_ID_MASK: uint64 := 0xFFFF_FFFF
  const ACCOUNT_INSTANCE_MASK: uint64 := 0xF_FFFF
  const ACCOUNT_TYPE_MASK: uint64 := 0xF
  const ACCOUNT_UNIVERSE_MASK: uint64 := 0xF

  const ACCOUNT_ID_OFFSET: nat := 0
  const ACCOUNT_INSTANCE_OFFSET: nat := 32
  const ACCOUNT_TYPE_OFFSET: nat := 52
  const ACCOUNT_UNIVERSE_OFFSET: nat := 56

  // ---- Go's shifts and complement on uint64 ----

  function Shr(x: uint64, n: nat): (r: nat) {
    x / Pow(2, n)
  }

  function Shl(x: uint64, n: nat): uint64 {
    x * Pow(2, n) % WORD
  }

  function Not(x: uint64): uint64 {
    WORD - 1 - x
  }

  function GetBits(sid: SteamID, mask: uint64, offset: nat): nat {
    And(Shr(sid, offset), mask)
  }

  function SetBits(sid: SteamID, value: uint64, mask: uint64, offset: nat): SteamID {
    AndAtMost(value, mask);
    AndAtMost(sid, Not(Shl(mask, offset)));
    TwoPowers();
    OrBound(And(sid, Not(Shl(mask, offset))), Shl(And(value, mask), offset), 64);
    Or(And(sid, Not(Shl(mask, offset))), Shl(And(value, mask), offset))
  }

  function AccountID(sid: SteamID): uint32 {
    GetBits(sid, ACCOUNT_ID_MASK, ACCOUNT_ID_OFFSET) % TWO32
  }

  function WithAccountID(sid: SteamID, accountID: uint32): SteamID {
    SetBits(sid, accountID, ACCOUNT_ID_MASK, ACCOUNT_ID_OFFSET)
  }

  function AccountInstance(sid: SteamID): uint32 {
    GetBits(sid, ACCOUNT_INSTANCE_MASK, ACCOUNT_INSTANCE_OFFSET) % TWO32
  }

  function WithAccountInstance(sid: SteamID, accountInstance: uint32): SteamID {
    SetBits(sid, accountInstance, ACCOUNT_INSTANCE_MASK, ACCOUNT_INSTANCE_OFFSET)
  }

  function AccountType(sid: SteamID): uint8 {
    GetBits(sid, ACCOUNT_TYPE_MASK, ACCOUNT_TYPE_OFFSET) % 0x100
  }

  function WithAccountType(sid: SteamID, accountType: uint8): SteamID {
    SetBits(sid, accountType, ACCOUNT_TYPE_MASK, ACCOUNT_TYPE_OFFSET)
  }

  function AccountUniverse(sid: SteamID): uint8 {
    GetBits(sid, ACCOUNT_UNIVERSE_MASK, ACCOUNT_UNIVERSE_OFFSET) % 0x100
  }

  function WithAccountUniverse(sid: SteamID, accountUniverse: uint8): SteamID {
    SetBits(sid, accountUniverse, ACCOUNT_UNIVERSE_MASK, ACCOUNT_UNIVERSE_OFFSET)
  }

  function NewSteamID(accountID: uint32, accountInstance: uint32, accountType: uint8, accountUniverse: uint8): SteamID {
    WithAccountUniverse(
      WithAccountType(
        WithAccountInstance(
          WithAccountID(0, accountID), accountInstance), accountType), accountUniverse)
  }

  lemma TwoPowers()
    ensures Pow(2, 0) == 1 && Pow(2, 4) == 0x10 && Pow(2, 8) == 0x100 && Pow(2, 12) == 0x1000 && Pow(2, 20) == TWO20
    ensures Pow(2, 32) == TWO32 && Pow(2, 52) == TWO52 && Pow(2, 56) == TWO56 && Pow(2, 60) == TWO60
    ensures Pow(2, 64) == WORD
  {
    assert Pow(2, 4) == 16;
    PowAdd(2, 4, 4);
    PowAdd(2, 8, 4);
    PowAdd(2, 8, 8);
    PowAdd(2, 16, 4);
    PowAdd(2, 16, 16);
    PowAdd(2, 32, 20);
    PowAdd(2, 52, 4);
    PowAdd(2, 56, 4);
    PowAdd(2, 60, 4);
  }

  // ---- what the two bit operations compute, for every field position ----

  /** getBits takes w binary digits from position o on. */
  lemma GetBitsValue(sid: SteamID, w: nat, o: nat)
    requires Pow(2, w) - 1 < WORD
    ensures GetBits(sid, Pow(2, w) - 1, o) == sid / Pow(2, o) % Pow(2, w)
  {
    AndMask(Shr(sid, o), w);
  }

  /** setBits replaces w binary digits from position o on by the low digits of v, and no others. */
  lemma SetBitsValue(sid: SteamID, v: uint64, w: nat, o: nat, P: nat, M: nat, N: nat, hi: nat, mid: nat, lo: nat)
    requires o + w <= 64 && P == Pow(2, o) && M == Pow(2, w) && N == Pow(2, 64 - o - w)
    requires N * M * P == WORD && M - 1 < WORD
    requires sid == (hi * M + mid) * P + lo && hi < N && mid < M && lo < P
    ensures SetBits(sid, v, M - 1, o) == (hi * M + v % M) * P + lo
  {
    var m := v % M;
    ClearBits(sid, w, o, P, M, N, hi, mid, lo);
    AndMask(v, w);
    FieldFits(P, M, N, m);
    MergeField(hi, m, lo, w, o, P, M);
  }

  lemma ClearBits(sid: SteamID, w: nat, o: nat, P: nat, M: nat, N: nat, hi: nat, mid: nat, lo: nat)
    requires o + w <= 64 && P == Pow(2, o) && M == Pow(2, w) && N == Pow(2, 64 - o - w)
    requires N * M * P == WORD && M - 1 < WORD
    requires sid == (hi * M + mid) * P + lo && hi < N && mid < M && lo < P
    ensures And(sid, Not(Shl(M - 1, o))) == hi * M * P + lo
  {
    MaskShape(P, M, N);
    SmallMod((M - 1) * P, WORD);
    KeepOutside(sid, Not(Shl(M - 1, o)), w, o, 64 - o - w, P, M, N, hi, mid, lo);
  }

  lemma KeepOutside(x: nat, y: nat, w: nat, o: nat, n: nat, P: nat, M: nat, N: nat, hi: nat, mid: nat, lo: nat)
    requires P == Pow(2, o) && M == Pow(2, w) && N == Pow(2, n)
    requires x == (hi * M + mid) * P + lo && hi < N && mid < M && lo < P
    requires y == ((N - 1) * M) * P + (P - 1)
    ensures And(x, y) == hi * M * P + lo
  {
    hide And, Pow;
    var top, ones := hi * M + mid, (N - 1) * M;
    MulNonNegative(hi, M);
    MulNonNegative(N - 1, M);
    AndSplit(o, x, y, top, lo, ones, P - 1);
    AndSplit(w, top, ones, hi, mid, N - 1, 0);
    AndZero(mid);
    AndMask(hi, n);
    AndMask(lo, o);
    SmallMod(hi, N);
    SmallMod(lo, P);
  }

  lemma MaskShape(P: nat, M: nat, N: nat)
    requires P > 0 && M > 0 && N > 0 && N * M * P == WORD
    ensures 0 <= (M - 1) * P < WORD
    ensures WORD - 1 - (M - 1) * P == ((N - 1) * M) * P + (P - 1)
  {
    assert (M - 1) * P == M * P - P;
    assert (N - 1) * M == N * M - M;
    assert (N * M - M) * P == N * M * P - M * P;
    MulNonNegative(M - 1, P);
    MulNonNegative(N - 1, M * P);
    assert (N - 1) * (M * P) == N * M * P - M * P;
  }

  lemma FieldFits(P: nat, M: nat, N: nat, m: nat)
    requires P > 0 && M > 0 && N > 0 && N * M * P == WORD && m < M
    ensures 0 <= m * P < WORD && m * P % WORD == m * P
  {
    MulNonNegative(m, P);
    MulStep(m, M, P);
    MulNonNegative(N - 1, M * P);
    assert (N - 1) * (M * P) == N * M * P - M * P;
    SmallMod(m * P, WORD);
  }

  lemma MergeField(hi: nat, m: nat, lo: nat, w: nat, o: nat, P: nat, M: nat)
    requires P == Pow(2, o) && M == Pow(2, w) && m < M && lo < P
    ensures 0 <= m * P && 0 <= hi * M && 0 <= hi * M * P
    ensures Or(hi * M * P + lo, m * P) == (hi * M + m) * P + lo
  {
    MulNonNegative(m, P);
    MulNonNegative(hi, M);
    MulNonNegative(hi * M, P);
    OrSplit(o, hi * M * P + lo, m * P, hi * M, lo, m, 0);
    OrSplit(w, hi * M, m, hi, 0, 0, m);
    OrZero(hi);
    OrZero(lo);
    OrZero(m);
  }

  // ---- a SteamID as a number with mixed digits ----

  /** The digits of a word at positions 0, 32, 52, 56 and 60. */
  datatype Fields = Fields(id: nat, inst: nat, typ: nat, univ: nat, rest: nat) {
    ghost predicate Valid() {
      id < TWO32 && inst < TWO20 && typ < 16 && univ < 16 && rest < 16
    }

    ghost function Word(): nat {
      id + TWO32 * inst + TWO52 * typ + TWO56 * univ + TWO60 * rest
    }
  }

  /** Every word has exactly one set of digits (FieldsUnique). */
  ghost function FieldsOf(sid: SteamID): (f: Fields)
    ensures f.Valid() && f.Word() == sid
  {
    var r1 := sid / TWO32;
    var r2 := r1 / TWO20;
    var r3 := r2 / 16;
    Fields(sid % TWO32, r1 % TWO20, r2 % 16, r3 % 16, r3 / 16)
  }

  lemma FieldsUnique(f: Fields, sid: SteamID)
    requires f.Valid() && f.Word() == sid
    ensures FieldsOf(sid) == f
  {
    var r3 := f.univ + 16 * f.rest;
    var r2 := f.typ + 16 * r3;
    var r1 := f.inst + TWO20 * r2;
    DivModUnique(sid, TWO32, r1, f.id);
    DivModUnique(r1, TWO20, r2, f.inst);
    DivModUnique(r2, 16, r3, f.typ);
    DivModUnique(r3, 16, f.rest, f.univ);
  }

  lemma Quotients(sid: SteamID)
    ensures var f := FieldsOf(sid);
            && sid / TWO32 % TWO20 == f.inst && sid / TWO52 % 16 == f.typ && sid / TWO56 % 16 == f.univ
            && sid / TWO60 == f.rest
  {
    DivDiv(sid, TWO32, TWO20);
    DivDiv(sid, TWO52, 16);
    DivDiv(sid, TWO56, 16);
  }

  /** The accessors read the digits. */
  lemma AccessorsRead(sid: SteamID)
    ensures var f := FieldsOf(sid);
            && AccountID(sid) == f.id && AccountInstance(sid) == f.inst
            && AccountType(sid) == f.typ && AccountUniverse(sid) == f.univ
  {
    hide And, Or, Pow;
    TwoPowers();
    GetBitsValue(sid, 32, 0);
    GetBitsValue(sid, 20, 32);
    GetBitsValue(sid, 4, 52);
    GetBitsValue(sid, 4, 56);
    Quotients(sid);
    var f := FieldsOf(sid);
    assert sid / 1 == sid;
    SmallMod(f.inst, TWO32);
    SmallMod(f.typ, 0x100);
    SmallMod(f.univ, 0x100);
  }

  lemma SetAccountID(sid: SteamID, v: uint32)
    ensures FieldsOf(WithAccountID(sid, v)) == FieldsOf(sid).(id := v)
  {
    TwoPowers();
    var f := FieldsOf(sid);
    var hi := f.inst + TWO20 * f.typ + 0x100_0000 * f.univ + 0x1000_0000 * f.rest;
    SetBitsValue(sid, v, 32, 0, 1, TWO32, TWO32, hi, f.id, 0);
    SmallMod(v, TWO32);
    FieldsUnique(f.(id := v), WithAccountID(sid, v));
  }

  lemma SetAccountInstance(sid: SteamID, v: uint32)
    ensures FieldsOf(WithAccountInstance(sid, v)) == FieldsOf(sid).(inst := v % TWO20)
  {
    TwoPowers();
    var f := FieldsOf(sid);
    SetBitsValue(sid, v, 20, 32, TWO32, TWO20, 0x1000, f.typ + 16 * f.univ + 256 * f.rest, f.inst, f.id);
    FieldsUnique(f.(inst := v % TWO20), WithAccountInstance(sid, v));
  }

  lemma SetAccountType(sid: SteamID, v: uint8)
    ensures FieldsOf(WithAccountType(sid, v)) == FieldsOf(sid).(typ := v % 16)
  {
    TwoPowers();
    var f := FieldsOf(sid);
    SetBitsValue(sid, v, 4, 52, TWO52, 16, 0x100, f.univ + 16 * f.rest, f.typ, f.id + TWO32 * f.inst);
    FieldsUnique(f.(typ := v % 16), WithAccountType(sid, v));
  }

  lemma SetAccountUniverse(sid: SteamID, v: uint8)
    ensures FieldsOf(WithAccountUniverse(sid, v)) == FieldsOf(sid).(univ := v % 16)
  {
    TwoPowers();
    var f := FieldsOf(sid);
    SetBitsValue(sid, v, 4, 56, TWO56, 16, 16, f.rest, f.univ, f.id + TWO32 * f.inst + TWO52 * f.typ);
    FieldsUnique(f.(univ := v % 16), WithAccountUniverse(sid, v));
  }

  /** Each setter replaces one digit, truncated to its width, and leaves every other one unchanged. */
  lemma SettersReplace(sid: SteamID, id: uint32, inst: uint32, typ: uint8, univ: uint8)
    ensures var f := FieldsOf(sid);
            && FieldsOf(WithAccountID(sid, id)) == f.(id := id)
            && FieldsOf(WithAccountInstance(sid, inst)) == f.(inst := inst % TWO20)
            && FieldsOf(WithAccountType(sid, typ)) == f.(typ := typ % 16)
            && FieldsOf(WithAccountUniverse(sid, univ)) == f.(univ := univ % 16)
  {
    SetAccountID(sid, id);
    SetAccountInstance(sid, inst);
    SetAccountType(sid, typ);
    SetAccountUniverse(sid, univ);
  }

  /** The constructor's shifts and masks add up to a weighted sum of the truncated fields. */
  lemma NewSteamIDValue(id: uint32, inst: uint32, typ: uint8, univ: uint8)
    ensures FieldsOf(NewSteamID(id, inst, typ, univ)) == Fields(id, inst % TWO20, typ % 16, univ % 16, 0)
    ensures NewSteamID(id, inst, typ, univ)
         == id + TWO32 * (inst % TWO20) + TWO52 * (typ % 16) + TWO56 * (univ % 16)
  {
    FieldsUnique(Fields(0, 0, 0, 0, 0), 0);
    SetAccountID(0, id);
    SetAccountInstance(WithAccountID(0, id), inst);
    SetAccountType(WithAccountInstance(WithAccountID(0, id), inst), typ);
    SetAccountUniverse(WithAccountType(WithAccountInstance(WithAccountID(0, id), inst), typ), univ);
  }

  /** A word is rebuilt from its four fields exactly when its four top bits are clear. */
  lemma RebuiltIff(sid: SteamID)
    ensures NewSteamID(AccountID(sid), AccountInstance(sid), AccountType(sid), AccountUniverse(sid)) == sid
       <==> sid < TWO60
  {
    hide NewSteamID, AccountID, AccountInstance, AccountType, AccountUniverse;
    AccessorsRead(sid);
    NewSteamIDValue(AccountID(sid), AccountInstance(sid), AccountType(sid), AccountUniverse(sid));
    var f := FieldsOf(sid);
    SmallMod(f.inst, TWO20);
    SmallMod(f.typ, 16);
    SmallMod(f.univ, 16);
  }
}
