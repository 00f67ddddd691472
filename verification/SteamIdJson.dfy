/** SteamIDs as JSON values (steamid/steamid.go). The JSON package is represented by the values it parses to. */
module SteamIdJson {
  import opened Wrappers
  import opened Integers
  import opened Words
  import opened SteamIdBits
  import opened SteamIdText
  import opened SteamIdDomains

  /** A parsed JSON value: an integer that fits 64 bits, null, a string, or anything else. */
  datatype Json = JInt(n: uint64) | JNull | JString(s: string) | JOther

  /** The id of account 0: universe 1, type 1, instance 1. */
  const STEAM_ID_BASE: uint64 := 76561197960265728

  datatype JsonError = NotASteamID | BadText(error: ParseError)

  function MarshalJSON(sid: SteamID): Json {
    JString(ToString(sid))
  }

  function FromNumber(n: uint64): SteamID {
    if n > STEAM_ID_BASE then n
    else NewSteamID(n % TWO32, 1, ACCOUNT_TYPE_INDIVIDUAL, ACCOUNT_UNIVERSE_PUBLIC)
  }

  /** The receiver's new value and the error. A null decodes into a uint64 as 0, a text that does not parse
      stores 0, and any other value leaves the receiver as it was. */
  function Unmarshalled(before: SteamID, json: Json): (SteamID, Option<JsonError>) {
    match json
    case JInt(n) => (FromNumber(n), None)
    case JNull => (FromNumber(0), None)
    case JString(s) =>
      (match FromString(s)
       case Ok(sid) => (sid, None)
       case Err(e) => (0, Some(BadText(e))))
    case JOther => (before, Some(NotASteamID))
  }

  /** A variable of type SteamID that UnmarshalJSON writes through its pointer receiver. */
  class SteamIDVariable {
    var sid: SteamID

    method UnmarshalJSON(json: Json) returns (error: Option<JsonError>)
      modifies this
      ensures (sid, error) == Unmarshalled(old(sid), json)
    {
      if json.JInt? || json.JNull? {
        var i := if json.JInt? then json.n else 0;
        if i > STEAM_ID_BASE {
          sid := i;
        } else {
          sid := NewSteamID(i % TWO32, 1, ACCOUNT_TYPE_INDIVIDUAL, ACCOUNT_UNIVERSE_PUBLIC);
        }
        return None;
      }
      if json.JString? {
        var parsed := FromString(json.s);
        if parsed.Err? {
          sid := 0;
          return Some(BadText(parsed.error));
        }
        sid := parsed.value;
        return None;
      }
      return Some(NotASteamID);
    }
  }

  /** Encoding and decoding give the id back exactly on the printable ids; elsewhere the receiver gets
      another id, or 0 and an error. */
  lemma JsonDomain(before: SteamID, sid: SteamID)
    ensures Unmarshalled(before, MarshalJSON(sid)) == (sid, None) <==> Printable(sid)
  {
    hide FromString, ToString;
    StringDomain(sid);
  }

  /** Every non-individual id of the universes 1 to 5 without high bits survives JSON. */
  lemma NonIndividualJson(before: SteamID, sid: SteamID)
    requires AccountType(sid) != ACCOUNT_TYPE_INDIVIDUAL
    requires sid < TWO60 && 1 <= AccountUniverse(sid) <= 5
    ensures Unmarshalled(before, MarshalJSON(sid)) == (sid, None)
  {
    NonIndividualPrintable(sid);
    JsonDomain(before, sid);
  }

  /** A number up to the base is cut to 32 bits and taken as a public account; a larger one is the id itself. */
  lemma NumberDecodes(n: uint64)
    ensures FromNumber(n) == if n > STEAM_ID_BASE then n else STEAM_ID_BASE + n % TWO32
  {
    hide NewSteamID;
    NewSteamIDValue(n % TWO32, 1, ACCOUNT_TYPE_INDIVIDUAL, ACCOUNT_UNIVERSE_PUBLIC);
    SmallMod(1, TWO20);
    SmallMod(1, 16);
  }

  /** The account number and the full id decode alike, for every account. */
  lemma NumbersAgree(before: SteamID, a: uint32)
    ensures Unmarshalled(before, JInt(a)) == Unmarshalled(before, JInt(STEAM_ID_BASE + a)) == (STEAM_ID_BASE + a, None)
  {
    hide NewSteamID;
    NumberDecodes(a);
    NumberDecodes(STEAM_ID_BASE + a);
    SmallMod(a, TWO32);
    DivModUnique(STEAM_ID_BASE, TWO32, 0x110_0001, 0);
  }
}
