/** The three textual forms of a SteamID and their parsers
    (steamid/steamid.go, steamid_2.go, steamid_3.go, steamid_64.go). */
module SteamIdText {
  import opened Integers
  import opened Words
  import opened Wrappers
  import opened Decimal
  import opened SteamIdBits

  const ACCOUNT_TYPE_INVALID: uint8 := 0
  const ACCOUNT_TYPE_INDIVIDUAL: uint8 := 1
  const ACCOUNT_TYPE_ANON_GAME_SERVER: uint8 := 4
  const ACCOUNT_TYPE_CONTENT_SERVER: uint8 := 6
  const ACCOUNT_TYPE_CLAN: uint8 := 7
  const ACCOUNT_TYPE_CHAT: uint8 := 8

  const ACCOUNT_UNIVERSE_INVALID: uint8 := 0
  const ACCOUNT_UNIVERSE_PUBLIC: uint8 := 1

  const ACCOUNT_INSTANCE_CLAN_MASK: uint32 := 0x8_0000

  datatype ParseError = InvalidFormat | UniverseOutOfRange | AccountOutOfRange | InvalidNumber

  type Parsed = Result<SteamID, ParseError>

  // ---- Steam2: ^STEAM_([0-5]):([0-1]):(\d+)$ ----

  predicate MatchesSteam2(s: string) {
    && |s| >= 11
    && s[..6] == "STEAM_"
    && '0' <= s[6] <= '5'
    && s[7] == ':'
    && '0' <= s[8] <= '1'
    && s[9] == ':'
    && AllDigits(s[10..])
  }

  function FromSteam2(s: string): Parsed {
    if !MatchesSteam2(s) then Err(InvalidFormat)
    else
      var digit := DigitValue(s[6]);
      var universe := if digit == ACCOUNT_UNIVERSE_INVALID then ACCOUNT_UNIVERSE_PUBLIC else digit;
      var authenticationServer := DigitValue(s[8]);
      match ParseUint(s[10..], 32)
      case None => Err(AccountOutOfRange)
      case Some(accountNumber) =>
        TwoPowers();
        var accountID := Or(accountNumber * 2 % TWO32, authenticationServer);
        OrBound(accountNumber * 2 % TWO32, authenticationServer, 32);
        // The universe digit goes in as the type and the constant 1 as the universe.
        Ok(NewSteamID(accountID, 1, universe, ACCOUNT_TYPE_INDIVIDUAL))
  }

  function ToSteam2(sid: SteamID): string {
    var u := AccountUniverse(sid);
    var universe := if u == ACCOUNT_UNIVERSE_INVALID then ACCOUNT_UNIVERSE_PUBLIC else u;
    "STEAM_" + Format(universe) + ":" + Format(And(AccountID(sid), 1)) + ":" + Format(AccountID(sid) / 2)
  }

  // ---- Steam3: ^\[([iIUgGcCAa])?:?(\d+):(\d+)(:?\d*)?\]$ ----

  const TYPE_LETTERS: string := "iIUgGcCAa"

  /** The end of the run of digits that starts at i. */
  function DigitRun(s: string, i: nat): (j: nat)
    requires i <= |s|
    ensures i <= j <= |s|
    ensures AllDigits(s[i..j])
    ensures j < |s| ==> !IsDigit(s[j])
    decreases |s| - i
  {
    if i < |s| && IsDigit(s[i]) then DigitRun(s, i + 1) else i
  }

  datatype Steam3Match = Steam3Match(letter: string, universe: string, account: string)

  /** The groups that the leftmost, longest-first match of the pattern captures. */
  function FindSteam3(s: string): Option<Steam3Match> {
    if s == "" || s[0] != '[' then None
    else
      var i1 := if |s| > 1 && s[1] in TYPE_LETTERS then 2 else 1;
      var i2 := if i1 < |s| && s[i1] == ':' then i1 + 1 else i1;
      var i3 := DigitRun(s, i2);
      if i3 == i2 || i3 == |s| || s[i3] != ':' then None
      else
        var i4 := DigitRun(s, i3 + 1);
        if i4 == i3 + 1 then None
        else
          var i5 := if i4 < |s| && s[i4] == ':' then DigitRun(s, i4 + 1) else i4;
          if i5 + 1 == |s| && s[i5] == ']'
          then Some(Steam3Match(s[1..i1], s[i2..i3], s[i3 + 1..i4]))
          else None
  }

  /** strings.ToUpper followed by the switch; an absent letter means an individual account. */
  function CharacterToAccountType(letter: string): uint8 {
    if letter == "U" || letter == "u" then ACCOUNT_TYPE_INDIVIDUAL
    else if letter == "G" || letter == "g" then ACCOUNT_TYPE_CLAN
    else if letter == "A" || letter == "a" then ACCOUNT_TYPE_ANON_GAME_SERVER
    else if letter == "C" || letter == "c" then ACCOUNT_TYPE_CONTENT_SERVER
    else if letter == "T" || letter == "t" then ACCOUNT_TYPE_CHAT
    else if letter == "I" || letter == "i" then ACCOUNT_TYPE_INVALID
    else ACCOUNT_TYPE_INDIVIDUAL
  }

  function AccountTypeToCharacter(accountType: uint8): string {
    if accountType == ACCOUNT_TYPE_INDIVIDUAL then "U"
    else if accountType == ACCOUNT_TYPE_CLAN then "G"
    else if accountType == ACCOUNT_TYPE_ANON_GAME_SERVER then "A"
    else if accountType == ACCOUNT_TYPE_CONTENT_SERVER then "C"
    else if accountType == ACCOUNT_TYPE_CHAT then "T"
    else if accountType == ACCOUNT_TYPE_INVALID then "I"
    else "U"
  }

  function DefaultInstance(accountType: uint8): uint32 {
    if accountType == ACCOUNT_TYPE_CLAN then 0 else 1
  }

  function FromSteam3(s: string): Parsed {
    match FindSteam3(s)
    case None => Err(InvalidFormat)
    case Some(m) =>
      TwoPowers();
      var accountType := CharacterToAccountType(m.letter);
      match ParseUint(m.universe, 8)
      case None => Err(UniverseOutOfRange)
      case Some(universe) =>
        match ParseUint(m.account, 32)
        case None => Err(AccountOutOfRange)
        case Some(accountID) =>
          // Here too the universe goes in as the type, and the type as the universe.
          Ok(NewSteamID(accountID, DefaultInstance(accountType), universe, accountType))
  }

  function ToSteam3(sid: SteamID): string {
    "[" + AccountTypeToCharacter(AccountType(sid)) + ":" + Format(AccountUniverse(sid)) + ":"
    + Format(AccountID(sid)) + "]"
  }

  // ---- Steam64: ^\d{17,18}$ ----

  predicate MatchesSteam64(s: string) {
    17 <= |s| <= 18 && AllDigits(s)
  }

  function FromSteam64(s: string): Parsed {
    if !MatchesSteam64(s) then Err(InvalidFormat)
    else
      TwoPowers();
      match ParseUint(s, 64)
      case None => Err(InvalidNumber)
      case Some(id) => Ok(id)
  }

  function ToSteam64(sid: SteamID): string {
    Format(sid)
  }

  // ---- any of the three ----

  /** The characters strings.TrimSpace removes. */
  predicate IsSpace(c: char) {
    || '\t' <= c <= '\r'
    || c == ' '
    || c == '\U{85}' || c == '\U{A0}' || c == '\U{1680}'
    || '\U{2000}' <= c <= '\U{200A}'
    || c == '\U{2028}' || c == '\U{2029}' || c == '\U{202F}' || c == '\U{205F}' || c == '\U{3000}'
  }

  function TrimSpace(s: string): string
    decreases |s|
  {
    if s == "" then ""
    else if IsSpace(s[0]) then TrimSpace(s[1..])
    else if IsSpace(s[|s| - 1]) then TrimSpace(s[..|s| - 1])
    else s
  }

  function FromString(input: string): Parsed {
    var s := TrimSpace(input);
    if MatchesSteam2(s) then FromSteam2(s)
    else if FindSteam3(s).Some? then FromSteam3(s)
    else if MatchesSteam64(s) then FromSteam64(s)
    else Err(InvalidFormat)
  }

  function ToString(sid: SteamID): string {
    if AccountType(sid) == ACCOUNT_TYPE_INDIVIDUAL then ToSteam2(sid) else ToSteam64(sid)
  }
}
