/** From decoded CSV rows to registry entries, and which of those entries become rules.
    Unicode lower-casing, space trimming and `net.ParseIP` are parameters. */
module RegistryParser {
  import opened Prelude
  import opened GoStrings
  import opened Domain
  import opened Reference

  datatype Text = Text(toLower: string -> string, trimSpace: string -> string, validIP: IPCheck)

  datatype ParseError =
    | InsufficientColumns
    | EmptyURLField
    | InvalidWildcardFormat
    | UnrecognizedFormat
    | BadEntry(cause: Error)
    | MalformedRow
    | NoValidEntries

  /** One row as the CSV reader delivers it. */
  datatype Row = Record(fields: seq<string>) | Malformed

  // ---------------------------------------------------------------- patterns

  predicate IsAlphanumeric(c: char) {
    'a' <= c <= 'z' || 'A' <= c <= 'Z' || '0' <= c <= '9'
  }

  /** `[a-zA-Z0-9]([a-zA-Z0-9\-]{0,61}[a-zA-Z0-9])?` */
  predicate LabelPattern(l: string) {
    && 1 <= |l| <= 63 && IsAlphanumeric(l[0]) && IsAlphanumeric(l[|l| - 1])
    && forall i | 1 <= i < |l| - 1 :: IsAlphanumeric(l[i]) || l[i] == '-'
  }

  /** The pattern in words: letters, digits and hyphens, one to 63, with no hyphen at an end. */
  lemma LabelPatternMeaning(l: string)
    ensures LabelPattern(l) <==>
            && 1 <= |l| <= 63 && l[0] != '-' && l[|l| - 1] != '-'
            && forall c | c in l :: c == '-' || 'a' <= c <= 'z' || 'A' <= c <= 'Z' || '0' <= c <= '9'
  {
    if 1 <= |l| <= 63 && forall c | c in l :: c == '-' || 'a' <= c <= 'z' || 'A' <= c <= 'Z' || '0' <= c <= '9' {
      assert forall i | 0 <= i < |l| :: l[i] in l;
    }
  }

  /** The pattern for domains: labels separated by single dots. */
  predicate DomainPattern(s: string) {
    forall l | l in Split(s, '.') :: LabelPattern(l)
  }

  predicate WildcardPattern(s: string) {
    HasPrefix(s, "*.") && DomainPattern(s[2..])
  }

  /** `DomainPattern` is the language of the regular expression `^L(\.L)*$`. */
  lemma DomainPatternIsLabels(s: string)
    ensures DomainPattern(s) <==>
            exists ls: seq<string> :: ls != [] && (forall l | l in ls :: LabelPattern(l)) && s == Join(ls, '.')
  {
    if DomainPattern(s) {
      JoinSplit(s, '.');
    }
    if ls: seq<string> :| ls != [] && (forall l | l in ls :: LabelPattern(l)) && s == Join(ls, '.') {
      forall l | l in ls ensures '.' !in l {
        assert LabelPattern(l);
      }
      SplitJoin(ls, '.');
    }
  }

  // ---------------------------------------------------------------- one entry

  const PROTOCOLS: seq<string> := ["https://", "http://", "ftp://"]

  function StripProtocol(entry: string, text: Text): string {
    StripFirst(entry, PROTOCOLS, text)
  }

  /** Drops the first protocol that the lower-cased entry starts with. */
  function StripFirst(entry: string, protocols: seq<string>, text: Text): string {
    if protocols == [] then entry
    else
      var p := protocols[0];
      if HasPrefix(text.toLower(entry), p) && |p| <= |entry| then entry[|p|..]
      else StripFirst(entry, protocols[1..], text)
  }

  /** Lower-casing `piece` gives `s`, and lower-casing that again changes nothing. */
  predicate LowersTo(text: Text, piece: string, s: string) {
    text.toLower(piece) == s && text.toLower(s) == s
  }

  predicate ContainsDoubleColon(s: string) {
    exists i :: 0 <= i < |s| - 1 && s[i] == ':' && s[i + 1] == ':'
  }

  /** An address, possibly followed by one `:port`. */
  predicate IsIPAddress(entry: string, text: Text) {
    var parts := Split(entry, ':');
    var host :=
      if Contains(entry, ':') && !ContainsDoubleColon(entry) && |parts| == 2 then parts[0] else entry;
    text.validIP(host)
  }

  function KindOf(entry: string, text: Text): Result<BlockingType, ParseError> {
    if HasPrefix(entry, "*.") then
      if WildcardPattern(entry) then Ok(Wildcard) else Err(InvalidWildcardFormat)
    else if IsIPAddress(entry, text) then Ok(IP)
    else if Contains(entry, '/') then Ok(URLPath)
    else if DomainPattern(entry) then Ok(DomainName)
    else Err(UnrecognizedFormat)
  }

  /** The registry entry for one piece of a URL field. */
  function Categorize(piece: string, text: Text): Result<RegistryEntry, ParseError> {
    var value := StripProtocol(text.toLower(piece), text);
    match KindOf(value, text)
    case Err(e) => Err(e)
    case Ok(kind) =>
      match NewRegistryEntry(kind, value, text.validIP)
      case Err(e) => Err(BadEntry(e))
      case Ok(entry) => Ok(entry)
  }

  // ---------------------------------------------------------------- accepted entries and rules

  lemma LabelIsValid(l: string)
    requires LabelPattern(l)
    ensures IsValidLabel(l)
  {
    assert l[|l| - 1..] == [l[|l| - 1]];
  }

  /** For a name that fits the pattern, validity only adds two labels and the length limit. */
  lemma PatternedDomainIsValid(s: string)
    requires DomainPattern(s)
    ensures IsValidDomain(s) <==> |Split(s, '.')| >= 2 && |s| <= MAX_DOMAIN_LENGTH
  {
    var parts := Split(s, '.');
    forall l | l in parts ensures IsValidLabel(l) {
      LabelIsValid(l);
    }
    OuterDotLeavesEmptyLabel(s);
  }

  /** The base of a wildcard that the parser lets through and the rules do not. */
  predicate BaseTooShortOrLong(base: string) {
    |Split(base, '.')| < 2 || |base| > MAX_DOMAIN_LENGTH
  }

  /** An accepted entry fails to become a rule exactly when it is a wildcard whose base has a
      single label or is longer than 253 bytes. */
  lemma AcceptedEntryBecomesRule(piece: string, text: Text)
    requires Categorize(piece, text).Ok?
    ensures var e := Categorize(piece, text).value;
      RuleOf(e, text.validIP).None? <==> e.kind == Wildcard && BaseTooShortOrLong(WildcardBase(e.domain))
  {
    var value := StripProtocol(text.toLower(piece), text);
    if HasPrefix(value, "*.") {
      PatternedDomainIsValid(value[2..]);
    }
  }

  lemma OneLabel(l: string)
    requires LabelPattern(l)
    ensures Split(l, '.') == [l] && WildcardPattern("*." + l) && WildcardBase("*." + l) == l
  {
    assert Join([l], '.') == l;
    SplitJoin([l], '.');
    assert ("*." + l)[2..] == l;
  }

  /** The gap is real: a wildcard on any single label, such as `*.localhost`, in whatever
      capitals, is accepted and yields no rule. */
  lemma SingleLabelWildcardIsDropped(piece: string, l: string, text: Text)
    requires LabelPattern(l) && LowersTo(text, piece, "*." + l)
    ensures Categorize(piece, text).Ok? && RuleOf(Categorize(piece, text).value, text.validIP).None?
  {
    OneLabel(l);
    StarIsNoProtocol("*." + l, PROTOCOLS, text);
    AcceptedEntryBecomesRule(piece, text);
  }

  lemma {:induction false} StarIsNoProtocol(s: string, protocols: seq<string>, text: Text)
    requires text.toLower(s) == s && s != "" && s[0] == '*'
    requires forall i | 0 <= i < |protocols| :: protocols[i] != "" && protocols[i][0] != '*'
    ensures StripFirst(s, protocols, text) == s
  {
    if protocols != [] {
      StarIsNoProtocol(s, protocols[1..], text);
    }
  }

  lemma AcceptedEntryIsComplete(piece: string, text: Text)
    requires Categorize(piece, text).Ok?
    ensures EntryIsValid(Categorize(piece, text).value)
    ensures Categorize(piece, text).value.kind !in {SNI, Unknown}
  {
  }

  /** Which pieces are accepted. */
  lemma AcceptedIff(piece: string, text: Text)
    ensures var value := StripProtocol(text.toLower(piece), text);
      Categorize(piece, text).Ok? <==>
      if HasPrefix(value, "*.") then DomainPattern(value[2..])
      else if IsIPAddress(value, text) then value != "" && text.validIP(value)
      else '/' in value || (DomainPattern(value) && !BaseTooShortOrLong(value))
  {
    var value := StripProtocol(text.toLower(piece), text);
    if DomainPattern(value) {
      PatternedDomainIsValid(value);
    }
  }

  /** What an accepted entry looks like: exactly one field is filled, and it fits its kind. */
  lemma AcceptedEntryFits(piece: string, text: Text)
    requires Categorize(piece, text).Ok?
    ensures var e := Categorize(piece, text).value;
      match e.kind
      case DomainName => e == RegistryEntry(DomainName, e.domain, "", "", [])
                         && IsValidDomain(e.domain) && DomainPattern(e.domain)
      case Wildcard => e == RegistryEntry(Wildcard, "*." + WildcardBase(e.domain), "", "", [])
                       && DomainPattern(WildcardBase(e.domain))
      case IP => e == RegistryEntry(IP, "", e.ip, "", []) && text.validIP(e.ip)
      case URLPath => e == RegistryEntry(URLPath, "", "", e.url, []) && '/' in e.url
      case _ => false
  {
    var value := StripProtocol(text.toLower(piece), text);
    if HasPrefix(value, "*.") {
      assert value == "*." + value[2..];
    }
  }

  predicate StartsWithProtocol(s: string) {
    exists i :: 0 <= i < |PROTOCOLS| && HasPrefix(s, PROTOCOLS[i])
  }

  lemma {:induction false} NothingToStrip(s: string, protocols: seq<string>, text: Text)
    requires text.toLower(s) == s
    requires forall i | 0 <= i < |protocols| :: !HasPrefix(s, protocols[i])
    ensures StripFirst(s, protocols, text) == s
  {
    if protocols != [] {
      NothingToStrip(s, protocols[1..], text);
    }
  }

  /** What starts with one protocol starts with no earlier one in the list. */
  lemma ProtocolsAreApart(k: nat, rest: string)
    requires k < |PROTOCOLS|
    ensures forall i | 0 <= i < k :: !HasPrefix(PROTOCOLS[k] + rest, PROTOCOLS[i])
  {
    var s := PROTOCOLS[k] + rest;
    assert PROTOCOLS[0][4] == 's' && PROTOCOLS[0][0] == PROTOCOLS[1][0] == 'h';
    if k == 1 {
      assert s[4] == PROTOCOLS[1][4] == ':';
    } else if k == 2 {
      assert s[0] == PROTOCOLS[2][0] == 'f';
    }
  }

  /** A leading protocol makes no difference to how an entry is read, however it and the rest
      are capitalised; only one is dropped, so the rest must not start with another. */
  lemma ProtocolIsIgnored(k: nat, full: string, bare: string, rest: string, text: Text)
    requires k < |PROTOCOLS| && !StartsWithProtocol(rest)
    requires LowersTo(text, full, PROTOCOLS[k] + rest) && LowersTo(text, bare, rest)
    ensures Categorize(full, text) == Categorize(bare, text)
  {
    var s := PROTOCOLS[k] + rest;
    NothingToStrip(rest, PROTOCOLS, text);
    ProtocolsAreApart(k, rest);
    StripsTheKth(s, PROTOCOLS, k, text);
    assert s[|PROTOCOLS[k]|..] == rest;
  }

  lemma {:induction false} StripsTheKth(s: string, protocols: seq<string>, k: nat, text: Text)
    requires k < |protocols| && text.toLower(s) == s && HasPrefix(s, protocols[k])
    requires forall i | 0 <= i < k :: !HasPrefix(s, protocols[i])
    ensures StripFirst(s, protocols, text) == s[|protocols[k]|..]
  {
    if k > 0 {
      StripsTheKth(s, protocols[1..], k - 1, text);
    }
  }

  // ---------------------------------------------------------------- from piece to entry

  lemma PatternIsNotEmpty(s: string)
    requires DomainPattern(s)
    ensures s != ""
  {
    assert Split(s, '.')[0] in Split(s, '.');
  }

  /** `s`, the lower-case form of an entry, starts with the k-th protocol and leaves `value`;
      `again` is what lower-casing makes of it once more, which is what the test looks at. */
  ghost predicate Drops(s: string, again: string, k: int, value: string) {
    0 <= k < |PROTOCOLS| && HasPrefix(again, PROTOCOLS[k]) && |PROTOCOLS[k]| <= |s| && value == s[|PROTOCOLS[k]|..]
  }

  /** `value` is what is left of the lower-cased piece when one protocol, if it starts with any,
      is dropped. */
  ghost predicate ReadAs(text: Text, piece: string, value: string) {
    var s := text.toLower(piece);
    var again := text.toLower(s);
    || (exists k :: Drops(s, again, k, value))
    || (value == s && forall k | 0 <= k < |PROTOCOLS| :: !HasPrefix(again, PROTOCOLS[k]) || |PROTOCOLS[k]| > |s|)
  }

  lemma OneProtocol(s: string, j: nat, k: nat)
    requires j < |PROTOCOLS| && k < |PROTOCOLS| && HasPrefix(s, PROTOCOLS[j]) && HasPrefix(s, PROTOCOLS[k])
    ensures j == k
  {
    assert s == PROTOCOLS[j] + s[|PROTOCOLS[j]|..] && s == PROTOCOLS[k] + s[|PROTOCOLS[k]|..];
    ProtocolsAreApart(j, s[|PROTOCOLS[j]|..]);
    ProtocolsAreApart(k, s[|PROTOCOLS[k]|..]);
  }

  lemma {:induction false} StripFirstDrops(s: string, protocols: seq<string>, text: Text) returns (k: nat)
    ensures k <= |protocols|
    ensures if k < |protocols|
            then HasPrefix(text.toLower(s), protocols[k]) && |protocols[k]| <= |s|
                 && StripFirst(s, protocols, text) == s[|protocols[k]|..]
            else StripFirst(s, protocols, text) == s
                 && forall j | 0 <= j < |protocols| ::
                      !HasPrefix(text.toLower(s), protocols[j]) || |protocols[j]| > |s|
  {
    if protocols == [] {
      k := 0;
    } else if HasPrefix(text.toLower(s), protocols[0]) && |protocols[0]| <= |s| {
      k := 0;
    } else {
      var n := StripFirstDrops(s, protocols[1..], text);
      k := n + 1;
    }
  }

  /** The value of a piece is what is left of it. */
  lemma StripIsReading(piece: string, value: string, text: Text)
    ensures ReadAs(text, piece, value) <==> value == StripProtocol(text.toLower(piece), text)
  {
    var s := text.toLower(piece);
    var again := text.toLower(s);
    var j := StripFirstDrops(s, PROTOCOLS, text);
    if j < |PROTOCOLS| {
      assert Drops(s, again, j, StripProtocol(s, text));
    }
    if k :| Drops(s, again, k, value) {
      OneProtocol(again, j, k);
    }
  }

  /** Where lower-casing is stable: the value with one protocol before it, or on its own. */
  lemma ReadAsStable(text: Text, piece: string, value: string)
    requires text.toLower(text.toLower(piece)) == text.toLower(piece)
    ensures var s := text.toLower(piece);
      ReadAs(text, piece, value) <==>
      || s == "https://" + value || s == "http://" + value || s == "ftp://" + value
      || (s == value && !HasPrefix(s, "https://") && !HasPrefix(s, "http://") && !HasPrefix(s, "ftp://"))
  {
    var s := text.toLower(piece);
    assert PROTOCOLS[0] == "https://" && PROTOCOLS[1] == "http://" && PROTOCOLS[2] == "ftp://";
    if k :| Drops(s, s, k, value) {
      assert s == PROTOCOLS[k] + value;
    }
    if k :| 0 <= k < |PROTOCOLS| && s == PROTOCOLS[k] + value {
      assert Drops(s, s, k, value);
    }
    forall k | 0 <= k < |PROTOCOLS| && HasPrefix(s, PROTOCOLS[k]) ensures StartsWithProtocol(s) {
    }
  }

  /** The entry an accepted piece becomes holds its value and nothing else, filed by what the
      value is; a refused piece gets the error of its first obstacle. */
  lemma CategorizeMeaning(piece: string, value: string, text: Text)
    requires ReadAs(text, piece, value)
    ensures Categorize(piece, text) ==
            if HasPrefix(value, "*.") then
              if DomainPattern(value[2..]) then Ok(RegistryEntry(Wildcard, value, "", "", []))
              else Err(InvalidWildcardFormat)
            else if IsIPAddress(value, text) then
              if value == "" then Err(BadEntry(RegistryEntryInvalid))
              else if text.validIP(value) then Ok(RegistryEntry(IP, "", value, "", []))
              else Err(BadEntry(InvalidIP))
            else if '/' in value then Ok(RegistryEntry(URLPath, "", "", value, []))
            else if !DomainPattern(value) then Err(UnrecognizedFormat)
            else if BaseTooShortOrLong(value) then Err(BadEntry(InvalidDomain))
            else Ok(RegistryEntry(DomainName, value, "", "", []))
  {
    StripIsReading(piece, value, text);
    if DomainPattern(value) {
      PatternedDomainIsValid(value);
      PatternIsNotEmpty(value);
    }
    hide IsValidDomain, DomainPattern, ReadAs, StripProtocol;
    assert HasPrefix(value, "*.") ==> value != "";
  }

  /** What counts as an address: a value with exactly one colon is one if the part before the
      colon is valid, any other value if the whole of it is. */
  lemma AddressMeaning(value: string, host: string, port: string, text: Text)
    ensures value == host + ":" + port && ':' !in host && ':' !in port ==>
              (IsIPAddress(value, text) <==> text.validIP(host))
    ensures (forall h: string, p: string :: value == h + ":" + p ==> ':' in h || ':' in p) ==>
              (IsIPAddress(value, text) <==> text.validIP(value))
  {
    if value == host + ":" + port && ':' !in host && ':' !in port {
      assert [host, port][1..] == [port];
      assert Join([host, port], ':') == value;
      SplitJoin([host, port], ':');
      assert value[|host|] == ':';
      OneColon(host, port);
    }
    var parts := Split(value, ':');
    if |parts| == 2 {
      JoinSplit(value, ':');
      assert parts[1..] == [parts[1]] && parts[0] in parts && parts[1] in parts;
      assert value == parts[0] + ":" + parts[1];
    }
  }

  /** An address followed by a port is recognised as an address and then refused, unless the
      whole of it is one. */
  lemma AddressWithPortIsRefused(piece: string, host: string, port: string, text: Text)
    requires StripProtocol(text.toLower(piece), text) == host + ":" + port
    requires host != "" && port != "" && ':' !in host && ':' !in port && !HasPrefix(host, "*")
    requires text.validIP(host) && !text.validIP(host + ":" + port)
    ensures Categorize(piece, text) == Err(BadEntry(InvalidIP))
  {
    var value := host + ":" + port;
    assert [host, port][1..] == [port];
    assert Join([host, port], ':') == value;
    SplitJoin([host, port], ':');
    assert value[|host|] == ':' && value[0] == host[0];
    OneColon(host, port);
    assert IsIPAddress(value, text);
    assert !HasPrefix(value, "*.") by {
      assert HasPrefix(host, "*") <==> host[0] == '*';
    }
  }

  lemma OneColon(host: string, port: string)
    requires ':' !in host && ':' !in port
    ensures !ContainsDoubleColon(host + ":" + port)
  {
    var value := host + ":" + port;
    forall i | 0 <= i < |value| && i != |host| ensures value[i] != ':' {
      if i < |host| {
        assert value[i] == host[i] && host[i] in host;
      } else {
        assert value[i] == port[i - |host| - 1] && port[i - |host| - 1] in port;
      }
    }
  }

  // ---------------------------------------------------------------- records

  function EntriesOfPieces(pieces: seq<string>, text: Text): seq<RegistryEntry> {
    if pieces == [] then []
    else
      var n := |pieces| - 1;
      EntriesOfPieces(pieces[..n], text) +
      (var piece := text.trimSpace(pieces[n]);
       if piece == "" then []
       else match Categorize(piece, text) { case Ok(e) => [e] case Err(_) => [] })
  }

  /** The pieces of the second column, in order. */
  function Pieces(record: seq<string>, text: Text): seq<string> {
    if |record| < 2 || text.trimSpace(record[1]) == "" then []
    else Split(text.trimSpace(record[1]), '|')
  }

  /** The rows that count: a malformed row fails the whole text, the first row is a header. */
  function EntriesOfRows(rows: seq<Row>, text: Text): seq<RegistryEntry> {
    if |rows| <= 1 then []
    else
      var n := |rows| - 1;
      EntriesOfRows(rows[..n], text) + EntriesOfRow(rows[n], text)
  }

  function EntriesOfRow(row: Row, text: Text): seq<RegistryEntry> {
    match row
    case Malformed => []
    case Record(fields) => EntriesOfPieces(Pieces(fields, text), text)
  }

  lemma EntriesOfRowsNext(rows: seq<Row>, n: nat, text: Text)
    requires n < |rows|
    ensures EntriesOfRows(rows[..n + 1], text) ==
            EntriesOfRows(rows[..n], text) + if n == 0 then [] else EntriesOfRow(rows[n], text)
  {
    hide EntriesOfRow;
    var first := rows[..n + 1];
    assert |first| == n + 1 && first[n] == rows[n] && first[..n] == rows[..n];
    if n == 0 {
      assert EntriesOfRows(first, text) == [];
    }
  }

  /** `entry` comes from a piece of the list. */
  ghost predicate FromPiece(pieces: seq<string>, entry: RegistryEntry, text: Text) {
    exists i :: 0 <= i < |pieces| && text.trimSpace(pieces[i]) != ""
                && Categorize(text.trimSpace(pieces[i]), text) == Ok(entry)
  }

  /** `entry` comes from a piece of a row below the header. */
  ghost predicate FromRow(rows: seq<Row>, entry: RegistryEntry, text: Text) {
    exists r :: 1 <= r < |rows| && rows[r].Record? && FromPiece(Pieces(rows[r].fields, text), entry, text)
  }

  lemma {:induction false} EntriesOfPiecesMembers(pieces: seq<string>, entry: RegistryEntry, text: Text)
    ensures entry in EntriesOfPieces(pieces, text) <==> FromPiece(pieces, entry, text)
  {
    if pieces != [] {
      var n := |pieces| - 1;
      var before := pieces[..n];
      EntriesOfPiecesMembers(before, entry, text);
      if FromPiece(before, entry, text) {
        var i :| 0 <= i < n && text.trimSpace(before[i]) != ""
                 && Categorize(text.trimSpace(before[i]), text) == Ok(entry);
        assert before[i] == pieces[i];
      }
      if FromPiece(pieces, entry, text) {
        var i :| 0 <= i <= n && text.trimSpace(pieces[i]) != ""
                 && Categorize(text.trimSpace(pieces[i]), text) == Ok(entry);
        assert i < n ==> before[i] == pieces[i];
      }
    }
  }

  lemma {:induction false} EntriesOfRowsMembers(rows: seq<Row>, entry: RegistryEntry, text: Text)
    ensures entry in EntriesOfRows(rows, text) <==> FromRow(rows, entry, text)
  {
    if |rows| > 1 {
      var n := |rows| - 1;
      EntriesOfRowsMembers(rows[..n], entry, text);
      FromRowNext(rows, entry, text);
      if rows[n].Record? {
        EntriesOfPiecesMembers(Pieces(rows[n].fields, text), entry, text);
      }
    }
  }

  lemma FromRowNext(rows: seq<Row>, entry: RegistryEntry, text: Text)
    requires |rows| > 1
    ensures var n := |rows| - 1;
      FromRow(rows, entry, text) <==>
      FromRow(rows[..n], entry, text)
      || (rows[n].Record? && FromPiece(Pieces(rows[n].fields, text), entry, text))
  {
    hide FromPiece, Pieces;
    var n := |rows| - 1;
    if FromRow(rows[..n], entry, text) {
      var r :| 1 <= r < n && rows[..n][r].Record? && FromPiece(Pieces(rows[..n][r].fields, text), entry, text);
      assert rows[r] == rows[..n][r];
    }
    if FromRow(rows, entry, text) {
      var r :| 1 <= r <= n && rows[r].Record? && FromPiece(Pieces(rows[r].fields, text), entry, text);
      assert r < n ==> rows[..n][r] == rows[r];
    }
  }

  /** What a listed entry says about a name, once entries that yield no rule are set aside. */
  predicate Lists(e: RegistryEntry, q: string) {
    match e.kind
    case DomainName => e.domain == q
    case IP => e.ip == q
    case Wildcard =>
      DotSuffix(WildcardBase(e.domain), q) && !BaseTooShortOrLong(WildcardBase(e.domain))
    case _ => false
  }

  lemma VerdictOfEntries(rows: seq<Row>, q: string, text: Text)
    ensures Verdict(EntriesOfRows(rows, text), q, text.validIP).Some? <==>
            exists e: RegistryEntry :: FromRow(rows, e, text) && Lists(e, q)
  {
    hide EntriesOfRows, FromRow, Lists, Scan;
    var es := EntriesOfRows(rows, text);
    VerdictMeaning(es, q, text.validIP);
    forall e: RegistryEntry | e in es
      ensures FromRow(rows, e, text)
      ensures Lists(e, q) <==> NamesExactly(e, q, text.validIP) || NamesIP(e, q, text.validIP)
                               || Covers(e, q, text.validIP)
    {
      EntriesOfRowsMembers(rows, e, text);
      ListsIsSpeaking(rows, e, q, text);
    }
    if e: RegistryEntry :| FromRow(rows, e, text) && Lists(e, q) {
      EntriesOfRowsMembers(rows, e, text);
      var i :| 0 <= i < |es| && es[i] == e;
    }
  }

  lemma ListsIsSpeaking(rows: seq<Row>, e: RegistryEntry, q: string, text: Text)
    requires FromRow(rows, e, text)
    ensures Lists(e, q) <==> NamesExactly(e, q, text.validIP) || NamesIP(e, q, text.validIP)
                             || Covers(e, q, text.validIP)
  {
    var r :| 1 <= r < |rows| && rows[r].Record? && FromPiece(Pieces(rows[r].fields, text), e, text);
    var pieces := Pieces(rows[r].fields, text);
    var i :| 0 <= i < |pieces| && text.trimSpace(pieces[i]) != ""
             && Categorize(text.trimSpace(pieces[i]), text) == Ok(e);
    AcceptedEntryBecomesRule(text.trimSpace(pieces[i]), text);
    AcceptedEntryIsComplete(text.trimSpace(pieces[i]), text);
  }

  /** `raw` stands between bars in the second column of the row. */
  ghost predicate InSecondColumn(row: Row, raw: string, text: Text) {
    && row.Record? && |row.fields| >= 2 && text.trimSpace(row.fields[1]) != ""
    && StandsBetween(text.trimSpace(row.fields[1]), '|', raw)
  }

  /** A value names `q`: as an address, as a name of two or more labels, or as a wildcard on
      such a name with `q` strictly below it. */
  predicate ValueNames(value: string, q: string, text: Text) {
    if HasPrefix(value, "*.") then
      DomainPattern(value[2..]) && IsValidDomain(value[2..]) && HasSuffix(q, "." + value[2..])
    else
      && value == q && value != ""
      && ((IsIPAddress(value, text) && text.validIP(value)) || (DomainPattern(value) && IsValidDomain(value)))
  }

  ghost predicate PieceNames(raw: string, q: string, text: Text) {
    var piece := text.trimSpace(raw);
    piece != "" && exists value :: ReadAs(text, piece, value) && ValueNames(value, q, text)
  }

  /** From text to verdict: after an update with the parsed rows, a name is blocked exactly
      when, in some row below the header, some piece between the bars of the second column,
      lower-cased and freed of one protocol, names it. */
  lemma ParsedVerdict(rows: seq<Row>, q: string, text: Text)
    ensures Verdict(EntriesOfRows(rows, text), q, text.validIP).Some? <==>
            exists r, raw :: 1 <= r < |rows| && InSecondColumn(rows[r], raw, text) && PieceNames(raw, q, text)
  {
    hide EntriesOfRows, Verdict, Lists, FromPiece, InSecondColumn, PieceNames, Pieces;
    VerdictOfEntries(rows, q, text);
    if e: RegistryEntry :| FromRow(rows, e, text) && Lists(e, q) {
      var r :| 1 <= r < |rows| && rows[r].Record? && FromPiece(Pieces(rows[r].fields, text), e, text);
      var raw := PieceOfEntry(rows[r], e, q, text);
    }
    if r, raw :| 1 <= r < |rows| && InSecondColumn(rows[r], raw, text) && PieceNames(raw, q, text) {
      var e := EntryOfPiece(rows[r], raw, q, text);
      assert FromRow(rows, e, text);
    }
  }

  lemma PieceOfEntry(row: Row, e: RegistryEntry, q: string, text: Text) returns (raw: string)
    requires row.Record? && FromPiece(Pieces(row.fields, text), e, text) && Lists(e, q)
    ensures InSecondColumn(row, raw, text) && PieceNames(raw, q, text)
  {
    hide Categorize, Lists, ReadAs, ValueNames, StandsBetween;
    var pieces := Pieces(row.fields, text);
    var i :| 0 <= i < |pieces| && text.trimSpace(pieces[i]) != ""
             && Categorize(text.trimSpace(pieces[i]), text) == Ok(e);
    raw := pieces[i];
    SplitMembers(text.trimSpace(row.fields[1]), '|', raw);
    var piece := text.trimSpace(raw);
    var value := StripProtocol(text.toLower(piece), text);
    StripIsReading(piece, value, text);
    EntryNamesAsValue(piece, value, q, text);
  }

  lemma EntryOfPiece(row: Row, raw: string, q: string, text: Text) returns (e: RegistryEntry)
    requires InSecondColumn(row, raw, text) && PieceNames(raw, q, text)
    ensures row.Record? && FromPiece(Pieces(row.fields, text), e, text) && Lists(e, q)
  {
    hide Categorize, Lists, ReadAs, ValueNames, StandsBetween;
    var pieces := Pieces(row.fields, text);
    SplitMembers(text.trimSpace(row.fields[1]), '|', raw);
    var i :| 0 <= i < |pieces| && pieces[i] == raw;
    var piece := text.trimSpace(raw);
    var value :| ReadAs(text, piece, value) && ValueNames(value, q, text);
    EntryNamesAsValue(piece, value, q, text);
    e := Categorize(piece, text).value;
  }

  /** The entry of a piece says of a name what the value of the piece says. */
  lemma EntryNamesAsValue(piece: string, value: string, q: string, text: Text)
    requires ReadAs(text, piece, value)
    ensures Categorize(piece, text).Ok? && Lists(Categorize(piece, text).value, q) <==> ValueNames(value, q, text)
  {
    hide Categorize, ReadAs, IsIPAddress, DomainPattern, IsValidDomain;
    CategorizeMeaning(piece, value, text);
    if DomainPattern(value) {
      PatternedDomainIsValid(value);
      PatternHasNoMarks(value, text);
    }
    if HasPrefix(value, "*.") {
      DotSuffixIsHasSuffix(value[2..], q);
      if DomainPattern(value[2..]) {
        PatternedDomainIsValid(value[2..]);
      }
    }
  }

  /** A patterned name has no slash and no colon, so it is an address only as a whole. */
  lemma PatternHasNoMarks(s: string, text: Text)
    requires DomainPattern(s)
    ensures s != "" && '/' !in s && (IsIPAddress(s, text) <==> text.validIP(s))
  {
    PatternIsNotEmpty(s);
    forall c | c in s ensures c !in {'/', ':'} {
      var j :| 0 <= j < |s| && s[j] == c;
      PatternBytes(s, j);
    }
  }

  lemma PatternBytes(s: string, j: nat)
    requires DomainPattern(s) && j < |s|
    ensures IsAlphanumeric(s[j]) || s[j] in {'-', '.'}
  {
    var parts := Split(s, '.');
    JoinSplit(s, '.');
    JoinedBytes(parts, '.', j);
  }

  lemma {:induction false} JoinedBytes(parts: seq<string>, sep: char, j: nat)
    requires j < |Join(parts, sep)| && forall l | l in parts :: LabelPattern(l)
    ensures var c := Join(parts, sep)[j]; IsAlphanumeric(c) || c in {'-', sep}
  {
    if |parts| == 1 || j < |parts[0]| {
      assert parts[0] in parts && LabelPattern(parts[0]);
    } else if j > |parts[0]| {
      JoinedBytes(parts[1..], sep, j - |parts[0]| - 1);
    }
  }

  // ---------------------------------------------------------------- the parsing loops

  method CategorizeEntry(entry: string, registry: Registry, text: Text) returns (err: Option<ParseError>)
    modifies registry
    ensures registry.Entries == old(registry.Entries) +
              match Categorize(entry, text) { case Ok(e) => [e] case Err(_) => [] }
    ensures err == match Categorize(entry, text) { case Ok(_) => None case Err(e) => Some(e) }
    ensures registry.EntryCount - |registry.Entries| == old(registry.EntryCount - |registry.Entries|)
    ensures registry.Version == old(registry.Version)
  {
    match Categorize(entry, text)
    case Err(e) => err := Some(e);
    case Ok(e) =>
      AcceptedEntryIsComplete(entry, text);
      var refused := registry.AddEntry(Some(e));
      err := None;
  }

  method ParseCSVRecord(record: seq<string>, registry: Registry, text: Text)
    returns (err: Option<ParseError>)
    modifies registry
    ensures registry.Entries == old(registry.Entries) + EntriesOfRow(Record(record), text)
    ensures err == if |record| < 2 then Some(InsufficientColumns)
                   else if text.trimSpace(record[1]) == "" then Some(EmptyURLField) else None
    ensures registry.EntryCount - |registry.Entries| == old(registry.EntryCount - |registry.Entries|)
    ensures registry.Version == old(registry.Version)
  {
    hide Split, Categorize;
    if |record| < 2 {
      return Some(InsufficientColumns);
    }
    var urlField := text.trimSpace(record[1]);
    if urlField == "" {
      return Some(EmptyURLField);
    }
    var entries := Split(urlField, '|');
    for i := 0 to |entries|
      invariant registry.Entries == old(registry.Entries) + EntriesOfPieces(entries[..i], text)
      invariant registry.EntryCount - |registry.Entries| == old(registry.EntryCount - |registry.Entries|)
      invariant registry.Version == old(registry.Version)
    {
      assert entries[..i + 1][..i] == entries[..i];
      var entry := text.trimSpace(entries[i]);
      if entry != "" {
        var skipped := CategorizeEntry(entry, registry, text);
      }
    }
    assert entries[..|entries|] == entries;
    err := None;
  }

  /** None of the first `n` rows is malformed. */
  predicate AllRecords(rows: seq<Row>, n: nat)
    requires n <= |rows|
  {
    forall i | 0 <= i < n :: rows[i].Record?
  }

  lemma AllRecordsNext(rows: seq<Row>, n: nat)
    requires n < |rows| && AllRecords(rows, n) && rows[n].Record?
    ensures AllRecords(rows, n + 1)
  {
  }

  /** The loop is at row `n` and has collected `entries`. */
  ghost predicate ParsedTo(rows: seq<Row>, n: nat, entries: seq<RegistryEntry>, text: Text) {
    n <= |rows| && AllRecords(rows, n) && entries == EntriesOfRows(rows[..n], text)
  }

  lemma ParsedStart(rows: seq<Row>, text: Text)
    ensures ParsedTo(rows, 0, [], text)
  {
  }

  lemma ParsedNext(rows: seq<Row>, n: nat, entries: seq<RegistryEntry>, text: Text)
    requires n < |rows| && ParsedTo(rows, n, entries, text) && rows[n].Record?
    ensures n == 0 || rows[n].fields == [] ==> ParsedTo(rows, n + 1, entries, text)
    ensures n > 0 ==> ParsedTo(rows, n + 1, entries + EntriesOfRow(rows[n], text), text)
  {
    AllRecordsNext(rows, n);
    EntriesOfRowsNext(rows, n, text);
    if rows[n].fields == [] {
      assert EntriesOfRow(rows[n], text) == [];
    }
  }

  method ParseRows(rows: seq<Row>, registry: Registry, text: Text) returns (ok: bool)
    requires registry.Entries == [] && registry.EntryCount == 0
    modifies registry
    ensures if ok then ParsedTo(rows, |rows|, registry.Entries, text) else !AllRecords(rows, |rows|)
    ensures registry.EntryCount == |registry.Entries| && registry.Version == old(registry.Version)
  {
    hide ParsedTo, EntriesOfRow;
    var lineNum := 0;
    ParsedStart(rows, text);
    while lineNum < |rows|
      invariant lineNum <= |rows| && ParsedTo(rows, lineNum, registry.Entries, text)
      invariant registry.EntryCount == |registry.Entries| && registry.Version == old(registry.Version)
    {
      var row := rows[lineNum];
      if row.Malformed? {
        return false;
      }
      ParsedNext(rows, lineNum, registry.Entries, text);
      if lineNum > 0 && |row.fields| > 0 {
        var skipped := ParseCSVRecord(row.fields, registry, text);
      }
      lineNum := lineNum + 1;
    }
    ok := true;
  }

  /** A parse succeeds exactly when no row is malformed and some entry is accepted; so it never
      delivers an empty registry. */
  method ParseCSVText(rows: seq<Row>, text: Text) returns (r: Result<Registry, ParseError>)
    ensures r.Ok? <==> AllRecords(rows, |rows|) && EntriesOfRows(rows, text) != []
    ensures r.Err? ==> r == Err(if AllRecords(rows, |rows|) then NoValidEntries else MalformedRow)
    ensures r.Ok? ==> fresh(r.value) && r.value.Entries == EntriesOfRows(rows, text) != []
                      && r.value.EntryCount == |r.value.Entries| && r.value.Version == ""
  {
    var registry := new Registry();
    registry.Source := "RKN Registry";
    var ok := ParseRows(rows, registry, text);
    if !ok {
      return Err(MalformedRow);
    }
    assert rows[..|rows|] == rows;
    var n := registry.Size();
    if n == 0 {
      return Err(NoValidEntries);
    }
    r := Ok(registry);
  }
}
