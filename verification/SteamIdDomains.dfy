/** On which SteamIDs each printer and parser undo each other. */
module SteamIdDomains {
  import opened Integers
  import opened Words
  import opened Wrappers
  import opened Decimal
  import opened SteamIdBits
  import opened SteamIdText

  // ---- Steam2 ----

  lemma ShiftOr(z: nat, y: nat)
    requires z < TWO32 && y < 2
    ensures Or(z * 2 % TWO32, y) == (2 * z + y) % TWO32
  {
    var half := if z < 0x8000_0000 then z else z - 0x8000_0000;
    assert z * 2 % TWO32 == 2 * half;
    OrHalf(2 * half, y);
    OrZero(half);
    assert y / 2 == 0 && 2 * half / 2 == half;
  }

  /** What a matching Steam2 text decodes to: account (2Z+Y) modulo 2^32, instance 1, type X (1 for X = 0),
      universe 1. It is rejected exactly when Z needs more than 32 binary digits. */
  lemma Steam2Decodes(s: string)
    requires MatchesSteam2(s)
    ensures FromSteam2(s).Ok? <==> Value(s[10..]) < TWO32
    ensures FromSteam2(s).Ok? ==>
              var x, y, z := DigitValue(s[6]), DigitValue(s[8]), Value(s[10..]);
              FieldsOf(FromSteam2(s).value) == Fields((2 * z + y) % TWO32, 1, if x == 0 then 1 else x, 1, 0)
  {
    hide NewSteamID, SetBits, Or, And, Pow;
    TwoPowers();
    var x, y, z := DigitValue(s[6]), DigitValue(s[8]), Value(s[10..]);
    if z < TWO32 {
      ShiftOr(z, y);
      NewSteamIDValue((2 * z + y) % TWO32, 1, if x == 0 then 1 else x, 1);
    }
  }

  /** The one-digit texts. */
  lemma FormatDigit(n: nat)
    requires n < 10
    ensures Format(n) == [DigitChar(n)]
  {
  }

  lemma AndOne(a: nat)
    ensures And(a, 1) == a % 2
  {
    AndMask(a, 1);
    assert Pow(2, 1) == 2;
  }

  lemma OneDigitUniverse(u: nat, y: nat, tail: string)
    requires u < 10 && y < 2 && tail != "" && AllDigits(tail)
    ensures var s := "STEAM_" + Format(u) + ":" + Format(y) + ":" + tail;
            && (MatchesSteam2(s) <==> u <= 5)
            && |s| > 10 && DigitValue(s[6]) == u && DigitValue(s[8]) == y && s[10..] == tail
  {
    hide Format;
    FormatDigit(u);
    FormatDigit(y);
    DigitInverse(u);
    DigitInverse(y);
    var s := "STEAM_" + [DigitChar(u)] + ":" + [DigitChar(y)] + ":" + tail;
    assert s[10..] == tail;
    assert s[..6] == "STEAM_";
  }

  lemma TwoDigitUniverse(u: nat, rest: string)
    requires 10 <= u < 16
    ensures !MatchesSteam2("STEAM_" + Format(u) + rest)
  {
    FormatDigit(u / 10);
    assert Format(u) == [DigitChar(u / 10)] + [DigitChar(u % 10)];
    DigitInverse(u % 10);
    var s := "STEAM_" + Format(u) + rest;
    assert s[7] == DigitChar(u % 10);
  }

  /** The printed Steam2 text matches the pattern exactly when the universe fits the pattern's one digit. */
  lemma PrintedSteam2(sid: SteamID)
    ensures var f := FieldsOf(sid);
            var u := if f.univ == 0 then 1 else f.univ;
            var s := ToSteam2(sid);
            && (MatchesSteam2(s) <==> u <= 5)
            && (u <= 5 ==>
                  && DigitValue(s[6]) == u
                  && DigitValue(s[8]) == f.id % 2
                  && Value(s[10..]) == f.id / 2)
  {
    hide AccountID, AccountUniverse, AccountType, AccountInstance, And, Format, MatchesSteam2;
    AccessorsRead(sid);
    var f := FieldsOf(sid);
    var u := if f.univ == 0 then 1 else f.univ;
    AndOne(f.id);
    ValueOfFormat(f.id / 2);
    var y, tail := Format(f.id % 2), Format(f.id / 2);
    if u < 10 {
      OneDigitUniverse(u, f.id % 2, tail);
    } else {
      TwoDigitUniverse(u, ":" + y + ":" + tail);
      assert ToSteam2(sid) == "STEAM_" + Format(u) + (":" + y + ":" + tail);
    }
  }

  /** Steam2 text and its parser undo each other exactly on public individual ids of instance 1
      without high bits. */
  lemma Steam2Domain(sid: SteamID)
    ensures FromSteam2(ToSteam2(sid)) == Ok(sid) <==>
            AccountUniverse(sid) == 1 && AccountType(sid) == 1 && AccountInstance(sid) == 1 && sid < TWO60
  {
    hide SetBits, GetBits, Or, And, Pow, Format, Value, NewSteamID;
    AccessorsRead(sid);
    PrintedSteam2(sid);
    var f := FieldsOf(sid);
    var s := ToSteam2(sid);
    if MatchesSteam2(s) {
      Steam2Decodes(s);
      assert 2 * (f.id / 2) + f.id % 2 == f.id;
      SmallMod(f.id, TWO32);
      var g := FieldsOf(FromSteam2(s).value);
      assert g == Fields(f.id, 1, if f.univ == 0 then 1 else f.univ, 1, 0);
      assert FromSteam2(s).value == sid <==> g == f;
    }
  }

  // ---- Steam3 ----

  /** The pieces that the Steam3 pattern allows between the brackets. */
  ghost predicate Steam3Pieces(letter: string, colon: string, universe: string, account: string, tail: string) {
    && (letter == "" || (|letter| == 1 && letter[0] in TYPE_LETTERS))
    && (colon == "" || colon == ":")
    && universe != "" && AllDigits(universe)
    && account != "" && AllDigits(account)
    && (AllDigits(tail) || (tail != "" && tail[0] == ':' && AllDigits(tail[1..])))
  }

  function Steam3Join(letter: string, colon: string, universe: string, account: string, tail: string): string {
    "[" + letter + colon + universe + ":" + account + tail + "]"
  }

  lemma DigitRunIs(s: string, i: nat, j: nat)
    requires i <= j <= |s| && AllDigits(s[i..j])
    requires j < |s| ==> !IsDigit(s[j])
    ensures DigitRun(s, i) == j
  {
    var r := DigitRun(s, i);
    assert forall k :: i <= k < j ==> s[k] == s[i..j][k - i];
    assert forall k :: i <= k < r ==> s[k] == s[i..r][k - i];
  }

  lemma Middle(s: string, a: string, b: string, c: string)
    requires s == a + b + c
    ensures s[|a|..|a| + |b|] == b
    ensures |a| <= |s| && s[..|a|] == a && s[|a| + |b|..] == c
  {
  }

  /** Where the pieces lie in the joined text; whole is the account with the digits that follow it. */
  lemma Layout(s: string, letter: string, colon: string, universe: string, whole: string, rest: string)
    requires s == "[" + letter + colon + universe + ":" + whole + rest
    ensures var i1 := 1 + |letter|;
            var i2 := i1 + |colon|;
            var i3 := i2 + |universe|;
            var i4 := i3 + 1 + |whole|;
            && i4 + |rest| == |s|
            && s[1..i1] == letter && s[i1..i2] == colon && s[i2..i3] == universe
            && s[i3] == ':' && s[i3 + 1..i4] == whole && s[i4..] == rest
  {
    Middle(s, "[" + letter + colon + universe + ":", whole, rest);
    var head := "[" + letter + colon + universe + ":";
    assert head == ("[" + letter + colon) + universe + ":";
    Middle(head, "[" + letter + colon, universe, ":");
    Middle("[" + letter + colon, "[" + letter, colon, "");
    Middle("[" + letter, "[", letter, "");
    assert s[..|head|] == head;
  }

  lemma Scanned(s: string, i1: nat, i2: nat, i3: nat, i4: nat)
    requires 1 <= i1 <= i2 < i3 < |s| && i3 + 1 < i4 < |s| && s[0] == '['
    requires (i1 == 2 && s[1] in TYPE_LETTERS) || (i1 == 1 && s[1] !in TYPE_LETTERS)
    requires (i2 == i1 + 1 && s[i1] == ':') || (i2 == i1 && s[i1] != ':')
    requires DigitRun(s, i2) == i3 && s[i3] == ':' && DigitRun(s, i3 + 1) == i4
    requires (i4 == |s| - 1 && s[i4] == ']') || (s[i4] == ':' && DigitRun(s, i4 + 1) == |s| - 1 && s[|s| - 1] == ']')
    ensures FindSteam3(s) == Some(Steam3Match(s[1..i1], s[i2..i3], s[i3 + 1..i4]))
  {
    hide DigitRun;
  }

  lemma ScannedPieces(s: string, letter: string, colon: string, universe: string, whole: string, rest: string)
    requires s == "[" + letter + colon + universe + ":" + whole + rest
    requires Steam3Pieces(letter, colon, universe, whole, "")
    requires rest == "]" || (|rest| >= 2 && rest[0] == ':' && AllDigits(rest[1..|rest| - 1]) && rest[|rest| - 1] == ']')
    ensures FindSteam3(s) == Some(Steam3Match(letter, universe, whole))
  {
    hide DigitRun, FindSteam3;
    var i1 := 1 + |letter|;
    var i2 := i1 + |colon|;
    var i3 := i2 + |universe|;
    var i4 := i3 + 1 + |whole|;
    Layout(s, letter, colon, universe, whole, rest);
    assert s[0] == '[';
    assert s[i2] == s[i2..i3][0] && s[i4] == s[i4..][0] && s[|s| - 1] == s[i4..][|rest| - 1];
    assert letter != "" ==> s[1] == s[1..i1][0];
    assert colon != "" ==> s[i1] == s[i1..i2][0];
    DigitRunIs(s, i2, i3);
    DigitRunIs(s, i3 + 1, i4);
    if rest != "]" {
      assert s[i4 + 1..|s| - 1] == s[i4..][1..|rest| - 1];
      DigitRunIs(s, i4 + 1, |s| - 1);
    }
    Scanned(s, i1, i2, i3, i4);
  }

  /** The scanner finds every text the pattern describes; digits written after the account belong to it. */
  lemma Steam3Complete(letter: string, colon: string, universe: string, account: string, tail: string)
    requires Steam3Pieces(letter, colon, universe, account, tail)
    ensures FindSteam3(Steam3Join(letter, colon, universe, account, tail))
         == Some(Steam3Match(letter, universe, if AllDigits(tail) then account + tail else account))
  {
    hide DigitRun, FindSteam3;
    var s := Steam3Join(letter, colon, universe, account, tail);
    var whole := if AllDigits(tail) then account + tail else account;
    var rest := if AllDigits(tail) then "]" else tail + "]";
    assert s == "[" + letter + colon + universe + ":" + whole + rest;
    if !AllDigits(tail) {
      assert rest[1..|rest| - 1] == tail[1..];
    }
    ScannedPieces(s, letter, colon, universe, whole, rest);
  }

  lemma Pieces(s: string, i1: nat, i2: nat, i3: nat, i4: nat)
    requires 1 <= i1 <= i2 <= i3 < i4 < |s|
    requires s[0] == '[' && s[i3] == ':' && s[|s| - 1] == ']'
    ensures s == "[" + s[1..i1] + s[i1..i2] + s[i2..i3] + ":" + s[i3 + 1..i4] + s[i4..|s| - 1] + "]"
  {
  }

  /** The positions at which the scanner cuts an accepted text. */
  lemma FoundAt(s: string) returns (i1: nat, i2: nat, i3: nat, i4: nat)
    requires FindSteam3(s).Some?
    ensures 1 <= i1 <= i2 < i3 && i3 + 1 < i4 < |s|
    ensures FindSteam3(s).value == Steam3Match(s[1..i1], s[i2..i3], s[i3 + 1..i4])
    ensures s[0] == '[' && s[i3] == ':' && s[|s| - 1] == ']'
    ensures i1 == 1 || (i1 == 2 && s[1] in TYPE_LETTERS)
    ensures i2 == i1 || (i2 == i1 + 1 && s[i1] == ':')
    ensures DigitRun(s, i2) == i3 && DigitRun(s, i3 + 1) == i4
    ensures i4 == |s| - 1 || (i4 < |s| - 1 && s[i4] == ':' && DigitRun(s, i4 + 1) == |s| - 1)
  {
    hide DigitRun;
    i1 := if |s| > 1 && s[1] in TYPE_LETTERS then 2 else 1;
    i2 := if i1 < |s| && s[i1] == ':' then i1 + 1 else i1;
    i3 := DigitRun(s, i2);
    i4 := DigitRun(s, i3 + 1);
  }

  /** What the scanner finds is described by the pattern, and no longer account would fit. */
  lemma Steam3Sound(s: string) returns (colon: string, tail: string)
    requires FindSteam3(s).Some?
    ensures var m := FindSteam3(s).value;
            && Steam3Pieces(m.letter, colon, m.universe, m.account, tail)
            && s == Steam3Join(m.letter, colon, m.universe, m.account, tail)
            && (tail == "" || tail[0] == ':')
  {
    hide DigitRun, FindSteam3;
    var i1, i2, i3, i4 := FoundAt(s);
    colon, tail := s[i1..i2], s[i4..|s| - 1];
    Pieces(s, i1, i2, i3, i4);
    if tail != "" {
      assert tail[1..] == s[i4 + 1..|s| - 1];
    }
  }

  /** The scanner accepts exactly the language of the pattern. */
  lemma Steam3Language(s: string)
    ensures FindSteam3(s).Some? <==>
            exists letter, colon, universe, account, tail ::
              Steam3Pieces(letter, colon, universe, account, tail)
              && s == Steam3Join(letter, colon, universe, account, tail)
  {
    if FindSteam3(s).Some? {
      var colon, tail := Steam3Sound(s);
    }
    forall letter, colon, universe, account, tail |
      Steam3Pieces(letter, colon, universe, account, tail) && s == Steam3Join(letter, colon, universe, account, tail)
      ensures FindSteam3(s).Some?
    {
      Steam3Complete(letter, colon, universe, account, tail);
    }
  }

  /** What a matching Steam3 text decodes to: the account as written, the default instance of the letter's type, the
      universe modulo 16 as the type, and the letter's type as the universe. It is rejected exactly when the universe
      needs more than 8 binary digits or the account more than 32. */
  lemma Steam3Decodes(s: string)
    requires FindSteam3(s).Some?
    ensures var m := FindSteam3(s).value;
            && AllDigits(m.universe) && AllDigits(m.account)
            && (FromSteam3(s).Ok? <==> Value(m.universe) < 256 && Value(m.account) < TWO32)
            && (FromSteam3(s).Ok? ==>
                  var t := CharacterToAccountType(m.letter);
                  FieldsOf(FromSteam3(s).value)
                  == Fields(Value(m.account), DefaultInstance(t), Value(m.universe) % 16, t, 0))
  {
    hide FindSteam3, NewSteamID, Value, Pow;
    TwoPowers();
    var colon, tail := Steam3Sound(s);
    var m := FindSteam3(s).value;
    if FromSteam3(s).Ok? {
      var t := CharacterToAccountType(m.letter);
      NewSteamIDValue(Value(m.account), DefaultInstance(t), Value(m.universe), t);
      SmallMod(DefaultInstance(t), TWO20);
      SmallMod(t, 16);
    }
  }

  /** Types that come back from their own letter. */
  predicate HasLetter(accountType: uint8) {
    accountType in {0, 1, 4, 6, 7}
  }

  lemma PrintedSteam3(sid: SteamID)
    ensures var f := FieldsOf(sid);
            var m := FindSteam3(ToSteam3(sid));
            && (m.None? <==> f.typ == ACCOUNT_TYPE_CHAT)
            && (m.Some? ==> m.value == Steam3Match(AccountTypeToCharacter(f.typ), Format(f.univ), Format(f.id)))
  {
    hide AccountID, AccountUniverse, AccountType, AccountInstance, DigitRun, Format;
    AccessorsRead(sid);
    var f := FieldsOf(sid);
    ValueOfFormat(f.univ);
    ValueOfFormat(f.id);
    var letter := AccountTypeToCharacter(f.typ);
    if f.typ == ACCOUNT_TYPE_CHAT {
      var s := ToSteam3(sid);
      assert s[1] == 'T';
      assert s[1..1] == "";
      DigitRunIs(s, 1, 1);
    } else {
      Steam3Complete(letter, ":", Format(f.univ), Format(f.id), "");
      assert Steam3Join(letter, ":", Format(f.univ), Format(f.id), "") == ToSteam3(sid);
      assert Format(f.id) + "" == Format(f.id);
    }
  }

  lemma ParsePrinted(n: nat, bits: nat)
    requires n < Pow(2, bits)
    ensures ParseUint(Format(n), bits) == Some(n)
  {
    ValueOfFormat(n);
  }

  /** Where printing and parsing take an id: a chat id is refused, any other comes back with type and universe
      exchanged. A type without a letter of its own counts as individual. */
  lemma Steam3Exchanges(sid: SteamID)
    ensures var f := FieldsOf(sid);
            var r := FromSteam3(ToSteam3(sid));
            if f.typ == ACCOUNT_TYPE_CHAT then r == Err(InvalidFormat)
            else
              var t := if HasLetter(f.typ) then f.typ else ACCOUNT_TYPE_INDIVIDUAL;
              r.Ok? && FieldsOf(r.value) == Fields(f.id, DefaultInstance(t), f.univ, t, 0)
  {
    hide ToSteam3, FindSteam3, Format, Pow, NewSteamID;
    PrintedSteam3(sid);
    var f := FieldsOf(sid);
    if f.typ != ACCOUNT_TYPE_CHAT {
      TwoPowers();
      ParsePrinted(f.univ, 8);
      ParsePrinted(f.id, 32);
      var t := CharacterToAccountType(AccountTypeToCharacter(f.typ));
      assert t == if HasLetter(f.typ) then f.typ else ACCOUNT_TYPE_INDIVIDUAL;
      NewSteamIDValue(f.id, DefaultInstance(t), f.univ, t);
      SmallMod(f.univ, 16);
      SmallMod(t, 16);
      SmallMod(DefaultInstance(t), TWO20);
    }
  }

  /** Steam3 text and its parser undo each other exactly on the ids whose universe equals their type, with a type that
      has a letter of its own, at the instance that type gets by default, without high bits. */
  lemma Steam3Domain(sid: SteamID)
    ensures FromSteam3(ToSteam3(sid)) == Ok(sid) <==>
            && HasLetter(AccountType(sid)) && AccountUniverse(sid) == AccountType(sid)
            && AccountInstance(sid) == DefaultInstance(AccountType(sid)) && sid < TWO60
  {
    hide AccountID, AccountUniverse, AccountType, AccountInstance, FromSteam3, ToSteam3;
    AccessorsRead(sid);
    Steam3Exchanges(sid);
    var r := FromSteam3(ToSteam3(sid));
    assert r.Ok? ==> (r.value == sid <==> FieldsOf(r.value) == FieldsOf(sid));
  }

  /** For instance, every clan of the public universe comes back as an individual of universe 7. */
  lemma ClanSteam3(account: uint32)
    ensures FromSteam3(ToSteam3(NewSteamID(account, 0, ACCOUNT_TYPE_CLAN, ACCOUNT_UNIVERSE_PUBLIC)))
         == Ok(NewSteamID(account, 0, ACCOUNT_TYPE_INDIVIDUAL, ACCOUNT_TYPE_CLAN))
  {
    hide FromSteam3, ToSteam3, NewSteamID;
    var sid := NewSteamID(account, 0, ACCOUNT_TYPE_CLAN, ACCOUNT_UNIVERSE_PUBLIC);
    NewSteamIDValue(account, 0, ACCOUNT_TYPE_CLAN, ACCOUNT_UNIVERSE_PUBLIC);
    NewSteamIDValue(account, 0, ACCOUNT_TYPE_INDIVIDUAL, ACCOUNT_TYPE_CLAN);
    Steam3Exchanges(sid);
  }

  // ---- Steam64 ----

  /** Every text of 17 or 18 digits is accepted with its value: 18 digits always fit 64 bits. */
  lemma Steam64Decodes(s: string)
    requires MatchesSteam64(s)
    ensures Value(s) < TEN18 && FromSteam64(s) == Ok(Value(s))
  {
    hide Value, Pow;
    TwoPowers();
    TenPowers();
    ValueBound(s);
    PowMonotone(|s|, 18);
  }

  /** Raw numbers survive exactly when they have 17 or 18 digits. */
  lemma Steam64Domain(sid: SteamID)
    ensures FromSteam64(ToSteam64(sid)) == Ok(sid) <==> TEN16 <= sid < TEN18
  {
    TwoPowers();
    SeventeenOrEighteen(sid);
    ParsePrinted(sid, 64);
  }

  // ---- any text ----

  lemma TrimNothing(s: string)
    requires s != "" && !IsSpace(s[0]) && !IsSpace(s[|s| - 1])
    ensures TrimSpace(s) == s
  {
  }

  /** Texts of the three forms are told apart by their first character. */
  lemma FormsDisjoint(s: string)
    ensures MatchesSteam2(s) ==> s[0] == 'S'
    ensures FindSteam3(s).Some? ==> s[0] == '['
    ensures MatchesSteam64(s) ==> IsDigit(s[0])
  {
    hide DigitRun;
    if MatchesSteam2(s) {
      assert s[0] == s[..6][0];
    }
  }

  lemma FromPrintedSteam2(sid: SteamID)
    ensures FromString(ToSteam2(sid)) == FromSteam2(ToSteam2(sid))
  {
    hide Format, AccountID, AccountUniverse, FindSteam3;
    var s := ToSteam2(sid);
    ValueOfFormat(AccountID(sid) / 2);
    var tail := Format(AccountID(sid) / 2);
    assert s[|s| - 1] == tail[|tail| - 1];
    assert IsDigit(tail[|tail| - 1]);
    assert s[0] == 'S';
    TrimNothing(s);
    FormsDisjoint(s);
  }

  lemma FromPrintedSteam64(sid: SteamID)
    ensures FromString(ToSteam64(sid)) == FromSteam64(ToSteam64(sid))
  {
    hide FindSteam3;
    var s := ToSteam64(sid);
    ValueOfFormat(sid);
    assert IsDigit(s[0]) && IsDigit(s[|s| - 1]);
    TrimNothing(s);
    FormsDisjoint(s);
  }

  /** The ids whose String form FromString turns back into the same id. */
  ghost predicate Printable(sid: SteamID) {
    if AccountType(sid) == ACCOUNT_TYPE_INDIVIDUAL
    then AccountUniverse(sid) == 1 && AccountInstance(sid) == 1 && sid < TWO60
    else TEN16 <= sid < TEN18
  }

  lemma StringDomain(sid: SteamID)
    ensures FromString(ToString(sid)) == Ok(sid) <==> Printable(sid)
  {
    hide FromString, FromSteam2, FromSteam64, ToSteam2, ToSteam64;
    if AccountType(sid) == ACCOUNT_TYPE_INDIVIDUAL {
      FromPrintedSteam2(sid);
      Steam2Domain(sid);
    } else {
      FromPrintedSteam64(sid);
      Steam64Domain(sid);
    }
  }

  /** Every clan, server or chat id of the universes 1 to 5 is printable. */
  lemma NonIndividualPrintable(sid: SteamID)
    requires AccountType(sid) != ACCOUNT_TYPE_INDIVIDUAL
    requires sid < TWO60 && 1 <= AccountUniverse(sid) <= 5
    ensures Printable(sid)
  {
    AccessorsRead(sid);
    var f := FieldsOf(sid);
    assert f.rest == 0;
  }

  // ---- clan and chat ids ----

  function ConvertClanToChat(sid: SteamID): SteamID {
    if AccountType(sid) != ACCOUNT_TYPE_CLAN then sid
    else WithAccountInstance(WithAccountType(sid, ACCOUNT_TYPE_CHAT), ACCOUNT_INSTANCE_CLAN_MASK)
  }

  function ConvertChatToClan(sid: SteamID): SteamID {
    if AccountType(sid) != ACCOUNT_TYPE_CHAT then sid
    else if AccountInstance(sid) != ACCOUNT_INSTANCE_CLAN_MASK then sid
    else WithAccountInstance(WithAccountType(sid, ACCOUNT_TYPE_CLAN), 0)
  }

  /** A clan id survives the detour over its chat exactly when its instance is 0, and a chat id the detour over
      its clan always; every other type is left alone, apart from the clan chats themselves. */
  lemma ClanChatRoundTrip(sid: SteamID)
    ensures ConvertChatToClan(ConvertClanToChat(sid)) == sid <==>
            (AccountType(sid) == ACCOUNT_TYPE_CLAN ==> AccountInstance(sid) == 0)
            && (AccountType(sid) == ACCOUNT_TYPE_CHAT ==> AccountInstance(sid) != ACCOUNT_INSTANCE_CLAN_MASK)
    ensures ConvertClanToChat(ConvertChatToClan(sid)) == sid <==> AccountType(sid) != ACCOUNT_TYPE_CLAN
  {
    hide AccountType, AccountInstance, WithAccountType, WithAccountInstance;
    AccessorsRead(sid);
    Converted(sid, ACCOUNT_TYPE_CHAT, ACCOUNT_INSTANCE_CLAN_MASK);
    Converted(sid, ACCOUNT_TYPE_CLAN, 0);
    var chat := ConvertClanToChat(sid);
    var clan := ConvertChatToClan(sid);
    AccessorsRead(chat);
    AccessorsRead(clan);
    Converted(chat, ACCOUNT_TYPE_CLAN, 0);
    Converted(clan, ACCOUNT_TYPE_CHAT, ACCOUNT_INSTANCE_CLAN_MASK);
    assert ConvertChatToClan(chat) == sid <==> FieldsOf(ConvertChatToClan(chat)) == FieldsOf(sid);
    assert ConvertClanToChat(clan) == sid <==> FieldsOf(ConvertClanToChat(clan)) == FieldsOf(sid);
  }

  lemma Converted(sid: SteamID, typ: uint8, inst: uint32)
    requires typ < 16 && inst < TWO20
    ensures FieldsOf(WithAccountInstance(WithAccountType(sid, typ), inst)) == FieldsOf(sid).(typ := typ, inst := inst)
  {
    hide WithAccountType, WithAccountInstance;
    SetAccountType(sid, typ);
    SetAccountInstance(WithAccountType(sid, typ), inst);
    SmallMod(typ, 16);
    SmallMod(inst, TWO20);
  }
}
