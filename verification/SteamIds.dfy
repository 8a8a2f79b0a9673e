/**
  Steam ids: 64-bit words of four fields, an account id (32 bits), an instance (20), an account type (4)
  and a universe (8); their Steam2 text, and the ids of a clan and its chat.
 */
module SteamIds {
  import opened Prelude
  import opened Strings
  import opened Words

  const ACCOUNT_MASK: Word := 0xFFFF_FFFF
  const INSTANCE_MASK: Word := 0xF_FFFF
  const TYPE_MASK: Word := 0xF
  const UNIVERSE_MASK: Word := 0xFF

  const DESKTOP: Word := 1
  const INVALID: Word := 0
  const INDIVIDUAL: Word := 1
  const CLAN: Word := 7
  const CHAT: Word := 8
  const CLAN_FLAG: Word := 0x8_0000

  datatype Fields = Fields(account: Word, instance: Word, kind: Word, universe: Word)

  function Account(b: Word): Word { GetBits(b, 0, ACCOUNT_MASK) }
  function Instance(b: Word): Word { GetBits(b, 32, INSTANCE_MASK) }
  function Type(b: Word): Word { GetBits(b, 52, TYPE_MASK) }
  function Universe(b: Word): Word { GetBits(b, 56, UNIVERSE_MASK) }

  function FieldsOf(b: Word): Fields {
    Fields(Account(b), Instance(b), Type(b), Universe(b))
  }

  /** The four fields cover the word: words with the same fields are the same. */
  lemma FieldsCover(a: Word, b: Word)
    requires FieldsOf(a) == FieldsOf(b)
    ensures a == b
  {}

  /** Where the fields stand in the word. */
  lemma FieldsAre(b: Word)
    ensures b == Account(b) | (Instance(b) << 32) | (Type(b) << 52) | (Universe(b) << 56)
    ensures Account(b) <= 0xFFFF_FFFF && Instance(b) <= 0xF_FFFF && Type(b) <= 0xF && Universe(b) <= 0xFF
  {}

  lemma SetAccount(b: Word, v: Word)
    ensures var c := SetBits(b, v, 0, ACCOUNT_MASK);
      Account(c) == v & 0xFFFF_FFFF && Instance(c) == Instance(b) && Type(c) == Type(b) && Universe(c) == Universe(b)
  {}

  lemma SetInstance(b: Word, v: Word)
    ensures var c := SetBits(b, v, 32, INSTANCE_MASK);
      Account(c) == Account(b) && Instance(c) == v & 0xF_FFFF && Type(c) == Type(b) && Universe(c) == Universe(b)
  {}

  lemma SetType(b: Word, v: Word)
    ensures var c := SetBits(b, v, 52, TYPE_MASK);
      Account(c) == Account(b) && Instance(c) == Instance(b) && Type(c) == v & 0xF && Universe(c) == Universe(b)
  {}

  lemma SetUniverse(b: Word, v: Word)
    ensures var c := SetBits(b, v, 56, UNIVERSE_MASK);
      Account(c) == Account(b) && Instance(c) == Instance(b) && Type(c) == Type(b) && Universe(c) == v & 0xFF
  {}

  /** Setting one field keeps the low bits of the value, and the other three fields. */
  lemma SetOneField(b: Word, v: Word)
    ensures FieldsOf(SetBits(b, v, 0, ACCOUNT_MASK)) == FieldsOf(b).(account := v & 0xFFFF_FFFF)
    ensures FieldsOf(SetBits(b, v, 32, INSTANCE_MASK)) == FieldsOf(b).(instance := v & 0xF_FFFF)
    ensures FieldsOf(SetBits(b, v, 52, TYPE_MASK)) == FieldsOf(b).(kind := v & 0xF)
    ensures FieldsOf(SetBits(b, v, 56, UNIVERSE_MASK)) == FieldsOf(b).(universe := v & 0xFF)
  {
    SetAccount(b, v);
    SetInstance(b, v);
    SetType(b, v);
    SetUniverse(b, v);
  }

  // ----- Steam2 text -----

  /** The text of an individual or invalid id; the other types have a text of another form. */
  function Steam2(b: Word): Option<string> {
    if Type(b) == INVALID || Type(b) == INDIVIDUAL then
      var u := if Universe(b) > 1 then Dec(ToNat(Universe(b))) else "0";
      Some(Parts(u, Dec(ToNat(Account(b) & 1)), Dec(ToNat(Account(b) >> 1))))
    else None
  }

  function Parts(universe: string, server: string, account: string): string {
    "STEAM_" + (universe + (":" + (server + (":" + account))))
  }

  function DigitRun(s: string): string {
    if s != "" && IsDigit(s[0]) then [s[0]] + DigitRun(s[1..]) else ""
  }

  predicate MatchesHere(s: string) {
    && |s| > 10
    && HasPrefix(s, "STEAM_") && '0' <= s[6] <= '4' && s[7] == ':'
    && '0' <= s[8] <= '1' && s[9] == ':' && IsDigit(s[10])
  }

  /** The pattern is not anchored: the text from its first match on. */
  function FirstMatch(s: string): (t: Option<string>)
    ensures t.Some? ==> MatchesHere(t.value)
  {
    if s == "" then None else if MatchesHere(s) then Some(s) else FirstMatch(s[1..])
  }

  /** The account number and the server bit of a Steam2 text. */
  function Parse2(s: string): Option<(nat, nat)> {
    match FirstMatch(s)
    case None => None
    case Some(t) => ParseMatch(t)
  }

  function ParseMatch(t: string): Option<(nat, nat)>
    requires MatchesHere(t)
  {
    match ParseUint(DigitRun(t[10..]), 0x1_0000_0000)
    case None => None
    case Some(n) => Some((n, DigitValue(t[8])))
  }

  /** The text from i up to n has the form STEAM_, a digit up to 4, a colon, 0 or 1, a colon and digits. */
  predicate MatchAt(s: string, i: nat, n: nat) {
    && i + 10 < n <= |s|
    && s[i..i + 6] == "STEAM_" && '0' <= s[i + 6] <= '4' && s[i + 7] == ':'
    && '0' <= s[i + 8] <= '1' && s[i + 9] == ':' && forall k :: i + 10 <= k < n ==> IsDigit(s[k])
  }

  /** The digits go on up to n. */
  predicate LongestAt(s: string, i: nat, n: nat) {
    MatchAt(s, i, n) && (n == |s| || !IsDigit(s[n]))
  }

  /** Nor does a match start further left. */
  ghost predicate FirstMatchAt(s: string, i: nat, n: nat) {
    && LongestAt(s, i, n)
    && forall j: nat, m: nat | j < i :: !MatchAt(s, j, m)
  }

  /** The first match in the text names this account number, of 32 bits, and server. */
  ghost predicate Names(s: string, account: nat, server: nat) {
    exists i: nat, n: nat :: FirstMatchAt(s, i, n) && NamesAt(s, i, n, account, server)
  }

  predicate NamesAt(s: string, i: nat, n: nat, account: nat, server: nat)
    requires MatchAt(s, i, n)
  {
    account == Value(s[i + 10..n]) < 0x1_0000_0000 && server == DigitValue(s[i + 8])
  }

  lemma MatchesHereIff(s: string, i: nat)
    requires i <= |s|
    ensures MatchesHere(s[i..]) <==> exists n: nat :: MatchAt(s, i, n)
  {
    var t := s[i..];
    if MatchesHere(t) {
      assert t[..6] == s[i..i + 6];
      assert MatchAt(s, i, i + 11);
    }
    if n: nat :| MatchAt(s, i, n) {
      assert t[..6] == s[i..i + 6];
    }
  }

  lemma {:induction false} FirstMatchFrom(s: string, i: nat)
    requires i <= |s|
    ensures FirstMatch(s[i..]).None? ==> forall k: nat | i <= k <= |s| :: !MatchesHere(s[k..])
    ensures FirstMatch(s[i..]).Some? ==> exists k: nat :: i <= k < |s| && FirstMatch(s[i..]) == Some(s[k..]) &&
                                           forall j: nat | i <= j < k :: !MatchesHere(s[j..])
    decreases |s| - i
  {
    if i == |s| {
    } else {
      assert s[i..][1..] == s[i + 1..];
      FirstMatchFrom(s, i + 1);
    }
  }

  lemma {:induction false} DigitRunTo(s: string, i: nat)
    requires i <= |s|
    ensures var n := i + |DigitRun(s[i..])|;
      && n <= |s| && DigitRun(s[i..]) == s[i..n] && (n == |s| || !IsDigit(s[n]))
      && forall k :: i <= k < n ==> IsDigit(s[k])
    decreases |s| - i
  {
    if i == |s| || !IsDigit(s[i]) {
    } else {
      assert s[i..][1..] == s[i + 1..];
      DigitRunTo(s, i + 1);
    }
  }

  lemma FirstMatchIsUnique(s: string, i: nat, n: nat, j: nat, m: nat)
    requires FirstMatchAt(s, i, n) && FirstMatchAt(s, j, m)
    ensures i == j && n == m
  {}

  /** Accepted texts are exactly those whose first match names an account number of 32 bits. */
  lemma Parse2Iff(s: string, account: nat, server: nat)
    ensures Parse2(s) == Some((account, server)) <==> Names(s, account, server)
  {
    assert s[0..] == s;
    FirstMatchFrom(s, 0);
    if FirstMatch(s).None? {
      NoneBefore(s, |s|);
    } else {
      var i: nat :| i < |s| && FirstMatch(s) == Some(s[i..]) && forall j: nat | j < i :: !MatchesHere(s[j..]);
      ParsedAt(s, i);
      var n: nat :| LongestAt(s, i, n) && ParseMatch(s[i..]) == ParsedUpTo(s, i, n);
      assert FirstMatchAt(s, i, n) by {
        NoneBefore(s, i);
      }
      if j: nat, m: nat :| FirstMatchAt(s, j, m) && NamesAt(s, j, m, account, server) {
        FirstMatchIsUnique(s, i, n, j, m);
      }
    }
  }

  lemma NoneBefore(s: string, i: nat)
    requires i <= |s| && forall j: nat | j < i :: !MatchesHere(s[j..])
    ensures forall j: nat, m: nat | j < i :: !MatchAt(s, j, m)
  {
    forall j: nat, m: nat | j < i ensures !MatchAt(s, j, m) {
      MatchesHereIff(s, j);
    }
  }

  function ParsedUpTo(s: string, i: nat, n: nat): Option<(nat, nat)>
    requires MatchAt(s, i, n)
  {
    var account := Value(s[i + 10..n]);
    if account < 0x1_0000_0000 then Some((account, DigitValue(s[i + 8]))) else None
  }

  lemma LongestMatch(s: string, i: nat, m: nat)
    requires MatchAt(s, i, m)
    ensures var n := i + 10 + |DigitRun(s[i + 10..])|;
      LongestAt(s, i, n) && DigitRun(s[i + 10..]) == s[i + 10..n]
  {
    DigitRunTo(s, i + 10);
  }

  lemma ParsedAt(s: string, i: nat)
    requires i < |s| && MatchesHere(s[i..])
    ensures exists n: nat :: LongestAt(s, i, n) && ParseMatch(s[i..]) == ParsedUpTo(s, i, n)
  {
    MatchesHereIff(s, i);
    var m: nat :| MatchAt(s, i, m);
    LongestMatch(s, i, m);
    ParsedDigits(s, i, i + 10 + |DigitRun(s[i + 10..])|);
  }

  lemma ParsedDigits(s: string, i: nat, n: nat)
    requires MatchAt(s, i, n) && MatchesHere(s[i..]) && DigitRun(s[i + 10..]) == s[i + 10..n]
    ensures ParseMatch(s[i..]) == ParsedUpTo(s, i, n)
  {
    var t := s[i..];
    assert t[10..] == s[i + 10..] && t[8] == s[i + 8];
    assert AllDigits(s[i + 10..n]);
  }

  /** The id set from a text; its universe is given by the caller. */
  function SetParsed(b: Word, account: nat, server: nat, u: Word): Word {
    var b1 := SetBits(b, u, 56, UNIVERSE_MASK);
    var b2 := SetBits(b1, DESKTOP, 32, INSTANCE_MASK);
    var b3 := SetBits(b2, INDIVIDUAL, 52, TYPE_MASK);
    SetBits(b3, ((FromNat(account) << 1) | FromNat(server)) & 0xFFFF_FFFF, 0, ACCOUNT_MASK)
  }

  class SteamId {
    var bits: Word

    constructor ()
      ensures bits == 0
    {
      bits := 0;
    }

    method SetAccountId(v: Word)
      modifies this
      ensures bits == SetBits(old(bits), v, 0, ACCOUNT_MASK)
    {
      bits := SetBits(bits, v, 0, ACCOUNT_MASK);
    }

    method SetAccountInstance(v: Word)
      modifies this
      ensures bits == SetBits(old(bits), v, 32, INSTANCE_MASK)
    {
      bits := SetBits(bits, v, 32, INSTANCE_MASK);
    }

    method SetAccountType(v: Word)
      modifies this
      ensures bits == SetBits(old(bits), v, 52, TYPE_MASK)
    {
      bits := SetBits(bits, v, 52, TYPE_MASK);
    }

    method SetAccountUniverse(v: Word)
      modifies this
      ensures bits == SetBits(old(bits), v, 56, UNIVERSE_MASK)
    {
      bits := SetBits(bits, v, 56, UNIVERSE_MASK);
    }

    method SetFromSteam2String(s: string, u: Word) returns (ok: bool)
      modifies this
      ensures ok <==> exists account: nat, server: nat :: Names(s, account, server)
      ensures forall account: nat, server: nat | Names(s, account, server) ::
        bits == SetParsed(old(bits), account, server, u)
      ensures !ok ==> bits == old(bits)
    {
      var parsed := Parse2(s);
      forall account: nat, server: nat ensures Names(s, account, server) <==> parsed == Some((account, server)) {
        Parse2Iff(s, account, server);
      }
      if parsed.None? {
        return false;
      }
      var (accountId, authServer) := parsed.value;
      SetAccountUniverse(u);
      SetAccountInstance(DESKTOP);
      SetAccountType(INDIVIDUAL);
      SetAccountId(((FromNat(accountId) << 1) | FromNat(authServer)) & 0xFFFF_FFFF);
      return true;
    }
  }

  // ----- the round trip -----

  lemma ParsedFields(b: Word, account: nat, server: nat, u: Word)
    ensures FieldsOf(SetParsed(b, account, server, u)) ==
            Fields(((FromNat(account) << 1) | FromNat(server)) & 0xFFFF_FFFF, 1, 1, u & 0xFF)
  {}

  lemma AccountBack(a: Word)
    requires a >> 32 == 0
    ensures (((a >> 1) << 1) | (a & 1)) & 0xFFFF_FFFF == a
  {}

  lemma {:induction false} NoMatch(s: string)
    requires 'S' !in s
    ensures FirstMatch(s) == None
  {
    if s == "" {
    } else {
      assert s[0] in s && "STEAM_"[0] == 'S';
      NoMatch(s[1..]);
    }
  }

  lemma {:induction false} RunOfDigits(s: string)
    requires forall i :: 0 <= i < |s| ==> IsDigit(s[i])
    ensures DigitRun(s) == s
  {
    if s == "" {
    } else {
      RunOfDigits(s[1..]);
    }
  }

  lemma SmallWord(b: Word)
    ensures b <= 4 <==> ToNat(b) <= 4
    ensures ToNat(b & 1) <= 1
  {
    FromToNat(b);
    assert FromNat(0) == 0 && FromNat(1) == 1;
    assert FromNat(2) == 2 && FromNat(3) == 3;
    assert FromNat(4) == 4;
    assert ToNat(0) == 0 && ToNat(1) == 1;
    assert ToNat(2) == 2 && ToNat(3) == 3;
    assert ToNat(4) == 4;
  }

  function Text(universe: nat, server: nat, account: nat): string {
    Parts(Dec(universe), Dec(server), Dec(account))
  }

  lemma DecLength(n: nat)
    ensures |Dec(n)| == 1 <==> n < 10
    ensures n < 10 ==> Dec(n) == [Digit(n)]
  {}

  lemma PartsShape(u: string, c: char, account: string)
    ensures var s, k := Parts(u, [c], account), |u|;
      && |s| == k + 9 + |account| && s[..6] == "STEAM_" && s[6..6 + k] == u && s[6 + k] == ':'
      && s[7 + k] == c && s[8 + k] == ':' && s[9 + k..] == account
  {}

  lemma TextShape(universe: nat, server: nat, account: nat)
    requires server <= 1
    ensures var s, k := Text(universe, server, account), |Dec(universe)|;
      && |s| > k + 9 && s[..6] == "STEAM_" && s[6..6 + k] == Dec(universe) && s[6 + k] == ':'
      && s[7 + k] == Digit(server) && s[8 + k] == ':' && s[9 + k..] == Dec(account)
  {
    DecLength(server);
    PartsShape(Dec(universe), Digit(server), Dec(account));
  }

  lemma OneMatch(universe: nat, server: nat, account: nat)
    requires server <= 1
    ensures MatchesHere(Text(universe, server, account)) <==> universe <= 4
    ensures 'S' !in Text(universe, server, account)[1..]
  {}

  lemma TextParses(universe: nat, server: nat, account: nat)
    requires server <= 1 && account < 0x1_0000_0000
    ensures Parse2(Text(universe, server, account)) == if universe <= 4 then Some((account, server)) else None
  {
    var s := Text(universe, server, account);
    OneMatch(universe, server, account);
    TextShape(universe, server, account);
    DecLength(universe);
    if universe <= 4 {
      RunOfDigits(Dec(account));
      ParseOfDec(account, 0x1_0000_0000);
      assert s[10..] == Dec(account) && s[8] == Digit(server);
      assert DigitValue(Digit(server)) == server;
    } else {
      NoMatch(s[1..]);
    }
  }

  lemma TextOf(b: Word)
    requires Type(b) == INVALID || Type(b) == INDIVIDUAL
    ensures Steam2(b) == Some(Text(if Universe(b) > 1 then ToNat(Universe(b)) else 0,
                                   ToNat(Account(b) & 1), ToNat(Account(b) >> 1)))
  {}

  lemma Steam2Parses(b: Word)
    requires Steam2(b).Some?
    ensures Parse2(Steam2(b).value) ==
            if Universe(b) <= 4 then Some((ToNat(Account(b) >> 1), ToNat(Account(b) & 1))) else None
  {
    TextOf(b);
    SmallWord(Universe(b));
    SmallWord(Account(b));
    AccountFits(b);
    TextParses(if Universe(b) > 1 then ToNat(Universe(b)) else 0, ToNat(Account(b) & 1), ToNat(Account(b) >> 1));
  }

  lemma AccountRestored(b: Word)
    ensures ((FromNat(ToNat(Account(b) >> 1)) << 1) | FromNat(ToNat(Account(b) & 1))) & 0xFFFF_FFFF == Account(b)
  {
    FromToNat(Account(b) & 1);
    FromToNat(Account(b) >> 1);
    AccountFits(b);
    AccountBack(Account(b));
  }

  /** An individual or invalid id shows its universe, 0 for 1, the lowest bit of its account and the others. */
  lemma Steam2Is(b: Word)
    ensures Steam2(b) ==
            if Type(b) > 1 then None
            else Some("STEAM_" + ((if Universe(b) <= 1 then "0" else Dec(ToNat(b >> 56))) + (":" + (
                      Dec(ToNat(b & 1)) + (":" + Dec(ToNat((b & 0xFFFF_FFFF) >> 1)))))))
  {}

  /**
    The Steam2 text of an id is accepted back exactly when the id's universe is at most 4; it gives
    an individual desktop id with the same account, in the universe asked for.
   */
  lemma Steam2RoundTrip(b: Word, start: Word, u: Word)
    requires Steam2(b).Some?
    ensures var parsed := Parse2(Steam2(b).value);
      && (parsed.Some? <==> Universe(b) <= 4)
      && (parsed.Some? ==>
            FieldsOf(SetParsed(start, parsed.value.0, parsed.value.1, u)) == Fields(Account(b), 1, 1, u & 0xFF))
  {
    Steam2Parses(b);
    AccountRestored(b);
    ParsedFields(start, ToNat(Account(b) >> 1), ToNat(Account(b) & 1), u);
  }

  lemma AccountFits(b: Word)
    ensures Account(b) >> 32 == 0 && ToNat(Account(b) >> 1) < 0x1_0000_0000
  {
    assert Account(b) >> 1 >> 32 == 0;
    ToNatBound(Account(b) >> 1, 32);
    PowerOfHalfWord();
  }

  /** So the text restores exactly the individual desktop ids of the universe asked for, up to 4. */
  lemma Steam2RestoresIff(b: Word, start: Word, u: Word)
    requires Steam2(b).Some?
    ensures var parsed := Parse2(Steam2(b).value);
      parsed.Some? && SetParsed(start, parsed.value.0, parsed.value.1, u) == b <==>
      Universe(b) <= 4 && Universe(b) == u & 0xFF && Type(b) == INDIVIDUAL && Instance(b) == DESKTOP
  {
    Steam2RoundTrip(b, start, u);
    var parsed := Parse2(Steam2(b).value);
    if parsed.Some? {
      var c := SetParsed(start, parsed.value.0, parsed.value.1, u);
      if FieldsOf(c) == FieldsOf(b) {
        FieldsCover(c, b);
      }
    }
  }

  // ----- clans and their chats -----

  function ToChatId(b: Word): Option<Word> {
    if Type(b) != CLAN then None
    else Some(SetBits(SetBits(b, CLAN_FLAG, 32, INSTANCE_MASK), CHAT, 52, TYPE_MASK))
  }

  function GetClanId(b: Word): Option<Word> {
    if Type(b) == CHAT && Instance(b) == CLAN_FLAG then
      Some(SetBits(SetBits(b, CLAN, 52, TYPE_MASK), 0, 32, INSTANCE_MASK))
    else None
  }

  /** Exactly clans have a chat id and exactly clan chats a clan id; account and universe are kept. */
  lemma ChatAndClanAre(b: Word)
    ensures ToChatId(b).Some? <==> Type(b) == 7
    ensures Type(b) == 7 ==> FieldsOf(ToChatId(b).value) == FieldsOf(b).(instance := 0x8_0000, kind := 8)
    ensures GetClanId(b).Some? <==> Type(b) == 8 && Instance(b) == 0x8_0000
    ensures GetClanId(b).Some? ==> FieldsOf(GetClanId(b).value) == FieldsOf(b).(instance := 0, kind := 7)
  {
    SetOneField(b, CLAN_FLAG);
    SetOneField(SetBits(b, CLAN_FLAG, 32, INSTANCE_MASK), CHAT);
    SetOneField(b, CLAN);
    SetOneField(SetBits(b, CLAN, 52, TYPE_MASK), 0);
    assert CLAN_FLAG & 0xF_FFFF == 0x8_0000 && CHAT & 0xF == 8 && CLAN & 0xF == 7 && (0 as Word) & 0xF_FFFF == 0;
  }

  /** A clan's chat id leads back to the clan, if the clan's instance is 0 as it should be. */
  lemma ClanOfChat(b: Word)
    requires ToChatId(b).Some?
    ensures GetClanId(ToChatId(b).value).Some?
    ensures GetClanId(ToChatId(b).value) == Some(b) <==> Instance(b) == 0
  {}

  /** A clan chat's clan id leads back to the chat. */
  lemma ChatOfClan(b: Word)
    requires GetClanId(b).Some?
    ensures ToChatId(GetClanId(b).value) == Some(b)
  {}
}
