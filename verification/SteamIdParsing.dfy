/** What FromString makes of any text, in terms of its characters (steamid/steamid.go, steamid_2.go, steamid_3.go,
    steamid_64.go). */
module SteamIdParsing {
  import opened Integers
  import opened Words
  import opened Wrappers
  import opened Decimal
  import opened SteamIdBits
  import opened SteamIdText
  import opened SteamIdDomains
  import opened SteamIdJson

  // ---- outer spaces ----

  predicate AllSpace(s: string) {
    forall i :: 0 <= i < |s| ==> IsSpace(s[i])
  }

  /** The characters that are removed. */
  lemma SpacesAre(c: char)
    ensures IsSpace(c) <==>
            c in {'\U{9}', '\U{A}', '\U{B}', '\U{C}', '\U{D}', '\U{20}', '\U{85}', '\U{A0}', '\U{1680}',
                  '\U{2000}', '\U{2001}', '\U{2002}', '\U{2003}', '\U{2004}', '\U{2005}', '\U{2006}', '\U{2007}',
                  '\U{2008}', '\U{2009}', '\U{200A}', '\U{2028}', '\U{2029}', '\U{202F}', '\U{205F}', '\U{3000}'}
  {
  }

  /** Begins and ends with characters that are not removed. */
  predicate IsCore(s: string) {
    s != "" && !IsSpace(s[0]) && !IsSpace(s[|s| - 1])
  }

  /** Spaces around a core are removed, whatever they are. */
  lemma {:induction false} TrimCore(before: string, core: string, behind: string)
    requires AllSpace(before) && IsCore(core) && AllSpace(behind)
    ensures TrimSpace(before + core + behind) == core
    decreases |before| + |behind|
  {
    var s := before + core + behind;
    if before != "" {
      assert s[0] == before[0] && s[1..] == before[1..] + core + behind;
      TrimCore(before[1..], core, behind);
    } else if behind != "" {
      var shorter := behind[..|behind| - 1];
      assert s[0] == core[0] && s[|s| - 1] == behind[|behind| - 1];
      assert s[..|s| - 1] == before + core + shorter;
      TrimCore(before, core, shorter);
    } else {
      assert s == core;
    }
  }

  /** A text of spaces alone leaves nothing. */
  lemma {:induction false} TrimAll(s: string)
    requires AllSpace(s)
    ensures TrimSpace(s) == ""
  {
    if s != "" {
      TrimAll(s[1..]);
    }
  }

  /** So spaces around the core do not matter. */
  lemma SpacesIgnored(before: string, core: string, behind: string)
    requires AllSpace(before) && IsCore(core) && AllSpace(behind)
    ensures FromString(before + core + behind) == FromString(core)
  {
    hide MatchesSteam2, FindSteam3, FromSteam2, FromSteam3, FromSteam64, TrimSpace;
    TrimCore(before, core, behind);
    TrimCore("", core, "");
    assert "" + core + "" == core;
  }

  // ---- the three languages ----

  predicate Digits(s: string) {
    s != "" && forall i :: 0 <= i < |s| ==> s[i] in "0123456789"
  }

  lemma DigitsAllDigits(s: string)
    ensures Digits(s) <==> s != "" && AllDigits(s)
  {
    AllDigitsAre(s);
  }

  function Steam2Join(x: char, y: char, z: string): string {
    "STEAM_" + [x] + ":" + [y] + ":" + z
  }

  predicate IsSteam2(x: char, y: char, z: string) {
    x in "012345" && y in "01" && Digits(z)
  }

  /** The Steam2 matcher accepts exactly the texts of the pattern. */
  lemma Steam2Language(s: string)
    ensures MatchesSteam2(s) <==> exists x, y, z :: IsSteam2(x, y, z) && s == Steam2Join(x, y, z)
  {
    if MatchesSteam2(s) {
      Steam2Parts(s);
    }
    forall x, y, z | IsSteam2(x, y, z) && s == Steam2Join(x, y, z)
      ensures MatchesSteam2(s)
    {
      Steam2Matches(x, y, z);
    }
  }

  lemma Steam2Parts(s: string)
    requires MatchesSteam2(s)
    ensures IsSteam2(s[6], s[8], s[10..]) && s == Steam2Join(s[6], s[8], s[10..])
  {
    DigitsAllDigits(s[10..]);
    DigitsAre(s[6], 0);
    DigitsAre(s[8], 0);
    assert s[..6] + s[6..] == s;
    assert s[6] == "012345"[s[6] as int - '0' as int] && s[8] == "01"[s[8] as int - '0' as int];
  }

  lemma Steam2Matches(x: char, y: char, z: string)
    requires IsSteam2(x, y, z)
    ensures var s := Steam2Join(x, y, z);
            MatchesSteam2(s) && s[6] == x && s[8] == y && s[10..] == z && IsCore(s)
  {
    DigitsAllDigits(z);
    var s := Steam2Join(x, y, z);
    assert s[..6] == "STEAM_" && s[10..] == z;
    assert s[|s| - 1] == z[|z| - 1];
    NoSpaces(z[|z| - 1]);
  }

  lemma NoSpaces(c: char)
    requires c in "0123456789"
    ensures !IsSpace(c)
  {
    DigitsAre(c, 0);
  }

  lemma Steam64Language(s: string)
    ensures MatchesSteam64(s) <==> Digits(s) && (|s| == 17 || |s| == 18)
  {
    DigitsAllDigits(s);
  }

  // ---- Steam2 texts ----

  /** A text STEAM_X:Y:Z, with any spaces around it, is account 2Z+Y modulo 2^32, instance 1, type X (1 for X = 0) and
      universe 1, and is refused exactly when Z is 2^32 or more. */
  lemma Steam2Text(before: string, x: char, y: char, z: string, behind: string)
    requires AllSpace(before) && IsSteam2(x, y, z) && AllSpace(behind)
    ensures AllDigits(z)
    ensures var r := FromString(before + Steam2Join(x, y, z) + behind);
            if Value(z) >= TWO32 then r == Err(AccountOutOfRange)
            else
              && r.Ok?
              && FieldsOf(r.value)
                 == Fields((2 * Value(z) + if y == '0' then 0 else 1) % TWO32, 1,
                           if x == '0' || x == '1' then 1
                           else if x == '2' then 2 else if x == '3' then 3 else if x == '4' then 4 else 5,
                           1, 0)
  {
    hide FindSteam3, FromSteam3, FromSteam64, NewSteamID, TrimSpace, MatchesSteam2, Value, Pow, Or;
    var core := Steam2Join(x, y, z);
    Steam2Matches(x, y, z);
    SpacesIgnored(before, core, behind);
    TrimCore("", core, "");
    assert "" + core + "" == core;
    Steam2Decodes(core);
    TwoPowers();
  }

  // ---- Steam3 texts ----

  /** The letters, and the types they stand for. */
  lemma LetterValues(letter: string)
    ensures letter in {"U", "u", ""} ==> CharacterToAccountType(letter) == 1
    ensures letter in {"G", "g"} ==> CharacterToAccountType(letter) == 7
    ensures letter in {"A", "a"} ==> CharacterToAccountType(letter) == 4
    ensures letter in {"C", "c"} ==> CharacterToAccountType(letter) == 6
    ensures letter in {"T", "t"} ==> CharacterToAccountType(letter) == 8
    ensures letter in {"I", "i"} ==> CharacterToAccountType(letter) == 0
    ensures letter !in {"U", "u", "G", "g", "A", "a", "C", "c", "T", "t", "I", "i"} ==>
              CharacterToAccountType(letter) == 1
  {
  }

  /** The letter of each type, and its default instance. */
  lemma TypeValues(accountType: uint8)
    ensures AccountTypeToCharacter(accountType)
         == if accountType == 7 then "G" else if accountType == 4 then "A" else if accountType == 6 then "C"
            else if accountType == 8 then "T" else if accountType == 0 then "I" else "U"
    ensures DefaultInstance(accountType) == 0 <==> accountType == 7
    ensures accountType != 7 ==> DefaultInstance(accountType) == 1
  {
  }

  /** The account that a Steam3 text names: digits written after it belong to it, those behind another colon do not. */
  function AccountText(account: string, tail: string): string {
    if tail == "" || tail[0] != ':' then account + tail else account
  }

  /** The pieces of a Steam3 text with a given type, of digits in decimal. */
  predicate IsSteam3(letter: string, typ: nat, colon: string, universe: string, account: string, tail: string) {
    && (match typ
        case 0 => letter in {"I", "i"}
        case 1 => letter in {"U", ""}
        case 4 => letter in {"A", "a"}
        case 6 => letter in {"C", "c"}
        case 7 => letter in {"G", "g"}
        case _ => false)
    && colon in {"", ":"} && Digits(universe) && Digits(account)
    && (tail == "" || Digits(tail) || tail == ":" || (tail[0] == ':' && Digits(tail[1..])))
  }

  lemma IsSteam3Pieces(letter: string, typ: nat, colon: string, universe: string, account: string, tail: string)
    requires IsSteam3(letter, typ, colon, universe, account, tail)
    ensures Steam3Pieces(letter, colon, universe, account, tail)
    ensures CharacterToAccountType(letter) == typ
    ensures AccountText(account, tail) == if AllDigits(tail) then account + tail else account
  {
    DigitsAllDigits(universe);
    DigitsAllDigits(account);
    DigitsAllDigits(tail);
    if tail != "" {
      DigitsAllDigits(tail[1..]);
    }
  }

  /** Every text of the pattern has such pieces. */
  lemma PiecesAreSteam3(letter: string, colon: string, universe: string, account: string, tail: string)
    requires Steam3Pieces(letter, colon, universe, account, tail)
    ensures exists typ :: IsSteam3(letter, typ, colon, universe, account, tail)
  {
    DigitsAllDigits(universe);
    DigitsAllDigits(account);
    DigitsAllDigits(tail);
    if tail != "" {
      DigitsAllDigits(tail[1..]);
      assert tail[0] == ':' && tail[1..] == "" ==> tail == ":";
    }
    var typ := CharacterToAccountType(letter);
    assert letter != "" ==> letter == [letter[0]];
    assert IsSteam3(letter, typ, colon, universe, account, tail);
  }

  /** A Steam3 text, with any spaces around it: the account, the default instance of the letter's type, the universe
      modulo 16 as the type, and the letter's type as the universe. It is refused exactly when the universe is 256 or
      more, or the account 2^32 or more. */
  lemma Steam3Text(before: string, letter: string, typ: nat, colon: string, universe: string, account: string,
                   tail: string, behind: string)
    requires AllSpace(before) && IsSteam3(letter, typ, colon, universe, account, tail) && AllSpace(behind)
    ensures AllDigits(universe) && AllDigits(AccountText(account, tail))
    ensures var r := FromString(before + Steam3Join(letter, colon, universe, account, tail) + behind);
            if Value(universe) >= 256 then r == Err(UniverseOutOfRange)
            else if Value(AccountText(account, tail)) >= TWO32 then r == Err(AccountOutOfRange)
            else
              && r.Ok?
              && FieldsOf(r.value)
                 == Fields(Value(AccountText(account, tail)), if typ == 7 then 0 else 1, Value(universe) % 16, typ, 0)
  {
    hide FindSteam3, FromSteam2, FromSteam64, NewSteamID, TrimSpace, MatchesSteam2, Value, Pow, IsSteam3, Steam3Pieces,
         AccountText;
    var core := Steam3Join(letter, colon, universe, account, tail);
    IsSteam3Pieces(letter, typ, colon, universe, account, tail);
    Steam3Complete(letter, colon, universe, account, tail);
    assert core[0] == '[' && core[|core| - 1] == ']';
    SpacesIgnored(before, core, behind);
    TrimCore("", core, "");
    assert "" + core + "" == core;
    FormsDisjoint(core);
    Steam3Decodes(core);
    TwoPowers();
    PiecesFilled(letter, typ, colon, universe, account, tail);
  }

  lemma PiecesFilled(letter: string, typ: nat, colon: string, universe: string, account: string, tail: string)
    requires IsSteam3(letter, typ, colon, universe, account, tail)
    ensures universe != "" && AccountText(account, tail) != ""
  {
  }

  // ---- raw numbers ----

  /** A number of 17 or 18 digits, with any spaces around it, is the id itself. */
  lemma Steam64Text(before: string, s: string, behind: string)
    requires AllSpace(before) && Digits(s) && (|s| == 17 || |s| == 18) && AllSpace(behind)
    ensures AllDigits(s) && FromString(before + s + behind) == Ok(Value(s))
  {
    hide FindSteam3, FromSteam2, FromSteam3, FromSteam64, TrimSpace, MatchesSteam2, Value;
    Steam64Language(s);
    NoSpaces(s[0]);
    NoSpaces(s[|s| - 1]);
    SpacesIgnored(before, s, behind);
    TrimCore("", s, "");
    assert "" + s + "" == s;
    DigitsAllDigits(s);
    FormsDisjoint(s);
    Steam64Decodes(s);
  }

  // ---- everything else ----

  predicate InLanguage(s: string) {
    MatchesSteam2(s) || FindSteam3(s).Some? || MatchesSteam64(s)
  }

  /** The three languages, by their texts. */
  lemma LanguagesAre(s: string)
    ensures InLanguage(s) <==>
            || (exists x, y, z :: IsSteam2(x, y, z) && s == Steam2Join(x, y, z))
            || (exists letter, typ, colon, universe, account, tail ::
                  IsSteam3(letter, typ, colon, universe, account, tail)
                  && s == Steam3Join(letter, colon, universe, account, tail))
            || (Digits(s) && (|s| == 17 || |s| == 18))
  {
    hide MatchesSteam2, FindSteam3, MatchesSteam64, IsSteam2, IsSteam3, Steam3Pieces, Steam2Join, Steam3Join, Digits;
    Steam2Language(s);
    Steam64Language(s);
    Steam3Language(s);
    forall letter, colon, universe, account, tail | Steam3Pieces(letter, colon, universe, account, tail)
      ensures exists typ :: IsSteam3(letter, typ, colon, universe, account, tail)
    {
      PiecesAreSteam3(letter, colon, universe, account, tail);
    }
    forall letter, typ, colon, universe, account, tail | IsSteam3(letter, typ, colon, universe, account, tail)
      ensures Steam3Pieces(letter, colon, universe, account, tail)
    {
      IsSteam3Pieces(letter, typ, colon, universe, account, tail);
    }
  }

  /** A core is refused for its form exactly when it is in none of the three languages, and so is a text of spaces. */
  lemma FormRefused(before: string, core: string, behind: string)
    requires AllSpace(before) && IsCore(core) && AllSpace(behind)
    ensures FromString(before + core + behind) == Err(InvalidFormat) <==> !InLanguage(core)
    ensures FromString(before) == Err(InvalidFormat)
  {
    hide FindSteam3, MatchesSteam2, NewSteamID, TrimSpace, Value, Or;
    SpacesIgnored(before, core, behind);
    TrimCore("", core, "");
    assert "" + core + "" == core;
    TrimAll(before);
    EmptyText();
    if MatchesSteam64(core) {
      Steam64Decodes(core);
    }
  }

  lemma EmptyText()
    ensures !MatchesSteam2("") && FindSteam3("").None? && !MatchesSteam64("")
  {
  }

  /** Every text is spaces, or spaces around a core. */
  lemma {:induction false} Cored(s: string) returns (before: string, core: string, behind: string)
    ensures s == before + core + behind && AllSpace(before) && AllSpace(behind)
    ensures core == "" ==> AllSpace(s)
    ensures core != "" ==> IsCore(core)
    decreases |s|
  {
    if s == "" {
      return "", "", "";
    }
    if IsSpace(s[0]) {
      before, core, behind := Cored(s[1..]);
      before := [s[0]] + before;
    } else if IsSpace(s[|s| - 1]) {
      var shorter := s[..|s| - 1];
      assert shorter[0] == s[0];
      before, core, behind := Cored(shorter);
      behind := behind + [s[|s| - 1]];
    } else {
      return "", s, "";
    }
  }

  // ---- printing ----

  /** The texts that are printed, from the fields of the id. */
  lemma Printed(sid: SteamID)
    ensures var f := FieldsOf(sid);
            && ToSteam2(sid)
               == "STEAM_" + Format(if f.univ == 0 then 1 else f.univ) + ":" + Format(f.id % 2) + ":" + Format(f.id / 2)
            && ToSteam3(sid)
               == "[" + (if f.typ == 7 then "G" else if f.typ == 4 then "A" else if f.typ == 6 then "C"
                         else if f.typ == 8 then "T" else if f.typ == 0 then "I" else "U")
                  + ":" + Format(f.univ) + ":" + Format(f.id) + "]"
            && ToSteam64(sid) == Format(sid)
            && ToString(sid) == (if f.typ == 1 then ToSteam2(sid) else Format(sid))
            && MarshalJSON(sid) == JString(ToString(sid))
  {
    hide AccountID, AccountUniverse, AccountType, And, Format;
    AccessorsRead(sid);
    AndOne(FieldsOf(sid).id);
  }

  // ---- JSON ----

  /** Every case of UnmarshalJSON: what is stored, and what is returned. */
  lemma JsonCases(before: SteamID, n: uint64, s: string)
    ensures Unmarshalled(before, JInt(n))
         == (if n > 76561197960265728 then n else 76561197960265728 + n % TWO32, None)
    ensures Unmarshalled(before, JNull) == (76561197960265728, None)
    ensures Unmarshalled(before, JOther) == (before, Some(NotASteamID))
    ensures FromString(s).Ok? ==> Unmarshalled(before, JString(s)) == (FromString(s).value, None)
    ensures FromString(s).Err? ==> Unmarshalled(before, JString(s)) == (0, Some(BadText(FromString(s).error)))
  {
    hide NewSteamID, FromString;
    NumberDecodes(n);
    NumberDecodes(0);
  }

  // ---- clan and chat ids ----

  /** The two conversions, field by field. */
  lemma Conversions(sid: SteamID)
    ensures var f := FieldsOf(sid);
            && FieldsOf(ConvertClanToChat(sid)) == (if f.typ == 7 then f.(typ := 8, inst := 0x8_0000) else f)
            && FieldsOf(ConvertChatToClan(sid))
               == (if f.typ == 8 && f.inst == 0x8_0000 then f.(typ := 7, inst := 0) else f)
  {
    hide AccountType, AccountInstance, WithAccountType, WithAccountInstance;
    AccessorsRead(sid);
    Converted(sid, 8, 0x8_0000);
    Converted(sid, 7, 0);
  }
}
