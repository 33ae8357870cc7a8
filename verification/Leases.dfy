/** Reserved addresses: one file a category, printed in address order and read back. */
module Leases {
  import opened Common
  import opened Text
  import opened Dhcp
  import opened DhcpRoundTrip

  datatype Category = Infrastructure | Servers | Network | HomeAutomation | Critical

  function Label(c: Category): string {
    match c
    case Infrastructure => "Infrastructure"
    case Servers => "Serveurs"
    case Network => "Infrastructure réseau"
    case HomeAutomation => "Passerelles domotiques"
    case Critical => "Équipements critiques"
  }

  datatype Reservation = Reservation(mac: string, address: IPv4, hostname: string, category: Category, description: string)

  predicate HexChar(c: char) { IsDigit(c) || 'a' <= c <= 'f' || 'A' <= c <= 'F' }

  predicate MacText(s: string) {
    |s| == 17 && forall i :: 0 <= i < 17 ==> if i % 3 == 2 then s[i] == ':' else HexChar(s[i])
  }

  function UpperChar(c: char): char { if 'a' <= c <= 'z' then c - ' ' else c }

  function Upper(s: string): string { if s == "" then "" else [UpperChar(s[0])] + Upper(s[1..]) }

  predicate ValidReservation(r: Reservation) {
    && MacText(r.mac) && Upper(r.mac) == r.mac
    && HostName(r.hostname) && Lower(r.hostname) == r.hostname
  }

  // ----------------------------------------------------------------- printing

  function Insert(r: Reservation, rs: seq<Reservation>): seq<Reservation> {
    if rs == [] || AddressNumber(r.address) <= AddressNumber(rs[0].address) then [r] + rs
    else [rs[0]] + Insert(r, rs[1..])
  }

  // The stable sort by address number.
  function ByAddress(rs: seq<Reservation>): seq<Reservation> {
    if rs == [] then [] else Insert(rs[0], ByAddress(rs[1..]))
  }

  function HostLine(r: Reservation): string { "dhcp-host=" + Join([r.mac, AddressText(r.address), r.hostname], ',') }

  function HostLines(rs: seq<Reservation>): seq<string> {
    if rs == [] then [] else [HostLine(rs[0])] + HostLines(rs[1..])
  }

  function Heading(c: Category): seq<string> {
    [Rule(), "# " + Label(c), "# Réservations gérées par Ohana-Agent", Rule(), ""]
  }

  function RenderReservations(c: Category, rs: seq<Reservation>): string {
    Join(Heading(c) + HostLines(ByAddress(rs)) + [""], '\n')
  }

  // ------------------------------------------------------------------ reading

  function BuildReservation(mac: string, address: string, hostname: string, c: Category): Result<Reservation, ReadError> {
    var ip := ParseAddress(address);
    if !MacText(mac) || ip.None? || !HostName(hostname) then Err(BadReservation)
    else Ok(Reservation(Upper(mac), ip.value, Lower(hostname), c, ""))
  }

  function ReadHost(line: string, c: Category): Result<Reservation, ReadError> {
    if !("dhcp-host=" <= line) then Err(UnsupportedDirective) else
    var values := Split(line[10..], ',');
    if |values| != 3 then Err(BadReservation)
    else BuildReservation(Strip(values[0]), Strip(values[1]), Strip(values[2]), c)
  }

  predicate Skipped(line: string) { line == "" || line[0] == '#' }

  // The first line that cannot be read decides the error.
  function ReadHosts(lines: seq<string>, c: Category): Result<seq<Reservation>, ReadError> {
    if lines == [] then Ok([]) else
    match ReadHosts(lines[..|lines| - 1], c)
    case Err(e) => Err(e)
    case Ok(before) => ReadNext(before, lines[|lines| - 1], c)
  }

  lemma {:induction false} ReadHostsStops(lines: seq<string>, k: nat, c: Category)
    requires k <= |lines| && ReadHosts(lines[..k], c).Err?
    ensures ReadHosts(lines, c) == ReadHosts(lines[..k], c)
    decreases |lines|
  {
    if k < |lines| {
      assert lines[..|lines| - 1][..k] == lines[..k];
      ReadHostsStops(lines[..|lines| - 1], k, c);
    } else {
      assert lines[..k] == lines;
    }
  }

  // One line further.
  function ReadNext(before: seq<Reservation>, raw: string, c: Category): Result<seq<Reservation>, ReadError> {
    var line := Strip(raw);
    if Skipped(line) then Ok(before) else
    var r := ReadHost(line, c);
    if r.Err? then Err(r.error) else Ok(before + [r.value])
  }

  lemma ReadHostsNext(lines: seq<string>, i: nat, c: Category, before: seq<Reservation>)
    requires i < |lines| && ReadHosts(lines[..i], c) == Ok(before)
    ensures ReadHosts(lines[..i + 1], c) == ReadNext(before, lines[i], c)
  {
    assert lines[..i + 1][..i] == lines[..i];
  }

  method ReadReservations(text: string, c: Category) returns (reply: Result<seq<Reservation>, ReadError>)
    ensures reply == ReadHosts(SplitLines(text), c)
  {
    var lines := SplitLines(text);
    var found: seq<Reservation> := [];
    for i := 0 to |lines|
      invariant ReadHosts(lines[..i], c) == Ok(found)
    {
      ReadHostsNext(lines, i, c, found);
      var line := Strip(lines[i]);
      if !Skipped(line) {
        var host := ReadHost(line, c);
        if host.Err? {
          ReadHostsStops(lines, i + 1, c);
          return Err(host.error);
        }
        found := found + [host.value];
      }
    }
    assert lines[..|lines|] == lines;
    return Ok(found);
  }

  // -------------------------------------------------------------------- order

  ghost predicate Sorted(rs: seq<Reservation>) {
    forall i, j :: 0 <= i < j < |rs| ==> AddressNumber(rs[i].address) <= AddressNumber(rs[j].address)
  }

  lemma {:induction false} InsertAdds(r: Reservation, rs: seq<Reservation>)
    ensures multiset(Insert(r, rs)) == multiset(rs) + multiset{r}
  {
    if rs != [] && AddressNumber(r.address) > AddressNumber(rs[0].address) {
      InsertAdds(r, rs[1..]);
      assert rs == [rs[0]] + rs[1..];
    }
  }

  // Nothing in the list lies below a bound.
  ghost predicate Above(bound: nat, rs: seq<Reservation>) {
    forall i :: 0 <= i < |rs| ==> bound <= AddressNumber(rs[i].address)
  }

  lemma {:induction false} InsertAbove(bound: nat, r: Reservation, rs: seq<Reservation>)
    requires bound <= AddressNumber(r.address) && Above(bound, rs)
    ensures Above(bound, Insert(r, rs))
  {
    if rs != [] && AddressNumber(r.address) > AddressNumber(rs[0].address) {
      InsertAbove(bound, r, rs[1..]);
    }
  }

  lemma {:induction false} InsertSorted(r: Reservation, rs: seq<Reservation>)
    requires Sorted(rs)
    ensures Sorted(Insert(r, rs))
  {
    if rs != [] && AddressNumber(r.address) > AddressNumber(rs[0].address) {
      InsertSorted(r, rs[1..]);
      InsertAbove(AddressNumber(rs[0].address), r, rs[1..]);
    }
  }

  // Printing orders the reservations by address and neither drops nor repeats one.
  lemma {:induction false} ByAddressSorts(rs: seq<Reservation>)
    ensures Sorted(ByAddress(rs)) && multiset(ByAddress(rs)) == multiset(rs)
  {
    if rs != [] {
      ByAddressSorts(rs[1..]);
      InsertSorted(rs[0], ByAddress(rs[1..]));
      InsertAdds(rs[0], ByAddress(rs[1..]));
      assert rs == [rs[0]] + rs[1..];
    }
  }

  // --------------------------------------------------------------- round trip

  lemma MacIsDense(s: string)
    requires MacText(s)
    ensures Dense(s) && ',' !in s
  {
    forall c | c in s ensures HexChar(c) || c == ':' {
      var i :| 0 <= i < |s| && s[i] == c;
    }
  }

  lemma PrefixIsDense()
    ensures Dense("dhcp-host=") && |"dhcp-host="| == 10 && "dhcp-host="[0] == 'd'
  {
  }

  // Three dense fields joined by commas come apart again, under any dense prefix.
  lemma FieldsComeApart(prefix: string, a: string, b: string, d: string)
    requires Dense(prefix) && Dense(a) && Dense(b) && Dense(d) && ',' !in a && ',' !in b && ',' !in d
    ensures var text := prefix + Join([a, b, d], ',');
            Dense(text) && Strip(text) == text && text[|prefix|..] == Join([a, b, d], ',')
    ensures Split(Join([a, b, d], ','), ',') == [a, b, d]
    ensures Strip(a) == a && Strip(b) == b && Strip(d) == d
  {
    var parts := [a, b, d];
    JoinChars(parts, ',');
    SplitJoin(parts, ',');
    DenseConcat(prefix, Join(parts, ','));
    DenseIsTidy(prefix + Join(parts, ','));
    DenseIsTidy(a);
    DenseIsTidy(b);
    DenseIsTidy(d);
  }

  lemma HostReadsBack(r: Reservation, c: Category)
    requires ValidReservation(r)
    ensures Dense(HostLine(r)) && Strip(HostLine(r)) == HostLine(r) && !Skipped(HostLine(r))
    ensures ReadHost(HostLine(r), c) == Ok(r.(category := c, description := ""))
  {
    MacIsDense(r.mac);
    AddressIsDense(r.address);
    HostNameIsDense(r.hostname);
    PrefixIsDense();
    FieldsComeApart("dhcp-host=", r.mac, AddressText(r.address), r.hostname);
    AddressReadsBack(r.address);
  }

  // The line dnsmasq expects of a host, spelled out.
  lemma HostLineSays(r: Reservation)
    ensures HostLine(r) == "dhcp-host=" + (r.mac + "," + (AddressText(r.address) + "," + r.hostname))
  {
    var parts := [r.mac, AddressText(r.address), r.hostname];
    assert parts[1..] == [AddressText(r.address), r.hostname] && parts[1..][1..] == [r.hostname];
    assert Join(parts[1..][1..], ',') == r.hostname;
    assert Join(parts[1..], ',') == AddressText(r.address) + [','] + r.hostname;
    assert Join(parts, ',') == r.mac + [','] + (AddressText(r.address) + [','] + r.hostname);
  }

  lemma HostFieldsAre(mac: string, address: string, hostname: string, c: Category, r: Reservation)
    ensures BuildReservation(mac, address, hostname, c) == Ok(r) <==>
              && MacText(mac) && HostName(hostname) && address == AddressText(r.address)
              && r == Reservation(Upper(mac), r.address, Lower(hostname), c, "")
  {
    AddressesAre(address, r.address);
  }

  // A host line is read exactly when it holds three fields: a hardware address, a dotted address and a
  // host name, up to white space. The first is put in upper case, the last in lower case.
  lemma HostLinesAre(parts: seq<string>, c: Category, r: Reservation)
    requires parts != [] && forall p :: p in parts ==> ',' !in p
    ensures ReadHost("dhcp-host=" + Join(parts, ','), c) == Ok(r) <==>
              && |parts| == 3 && MacText(Strip(parts[0])) && HostName(Strip(parts[2]))
              && Strip(parts[1]) == AddressText(r.address)
              && r == Reservation(Upper(Strip(parts[0])), r.address, Lower(Strip(parts[2])), c, "")
  {
    HostLineSplits(parts, c);
    if |parts| == 3 { HostFieldsAre(Strip(parts[0]), Strip(parts[1]), Strip(parts[2]), c, r); }
  }

  lemma HostLineSplits(parts: seq<string>, c: Category)
    requires parts != [] && forall p :: p in parts ==> ',' !in p
    ensures ReadHost("dhcp-host=" + Join(parts, ','), c) ==
              if |parts| != 3 then Err(BadReservation)
              else BuildReservation(Strip(parts[0]), Strip(parts[1]), Strip(parts[2]), c)
  {
    SplitJoin(parts, ',');
    assert ("dhcp-host=" + Join(parts, ','))[10..] == Join(parts, ',');
  }

  // Hardware addresses: six pairs of hexadecimal digits with colons between, in either case.
  lemma HardwareAddressesAre(s: string)
    ensures MacText(s) <==>
              && |s| == 17 && (forall k :: 0 <= k < 5 ==> s[3 * k + 2] == ':')
              && forall k :: 0 <= k < 6 ==> s[3 * k] in HEX_DIGITS && s[3 * k + 1] in HEX_DIGITS
  {
    if MacText(s) {
      forall k | 0 <= k < 6 ensures s[3 * k] in HEX_DIGITS && s[3 * k + 1] in HEX_DIGITS {
        HexCharIs(s[3 * k]);
        HexCharIs(s[3 * k + 1]);
      }
    }
    if |s| == 17 && (forall k :: 0 <= k < 5 ==> s[3 * k + 2] == ':')
       && forall k :: 0 <= k < 6 ==> s[3 * k] in HEX_DIGITS && s[3 * k + 1] in HEX_DIGITS {
      forall i | 0 <= i < 17 ensures if i % 3 == 2 then s[i] == ':' else HexChar(s[i]) {
        var k := i / 3;
        assert i == 3 * k || i == 3 * k + 1 || i == 3 * k + 2;
        HexCharIs(s[i]);
      }
    }
  }

  lemma HexCharIs(c: char)
    ensures HexChar(c) <==> c in HEX_DIGITS
  {
  }

  const HEX_DIGITS: set<char> := {
    '0', '1', '2', '3', '4', '5', '6', '7', '8', '9', 'a', 'b', 'c', 'd', 'e', 'f', 'A', 'B', 'C', 'D', 'E', 'F'}

  lemma {:induction false} CasesByPosition(s: string)
    ensures |Upper(s)| == |Lower(s)| == |s|
    ensures forall i :: 0 <= i < |s| ==> Upper(s)[i] == UpperChar(s[i]) && Lower(s)[i] == LowerChar(s[i])
  {
    if s != "" { CasesByPosition(s[1..]); }
  }

  lemma Cases()
    ensures forall c :: 'a' <= c <= 'z' ==> 'A' <= UpperChar(c) <= 'Z' && LowerChar(UpperChar(c)) == c
    ensures forall c :: !('a' <= c <= 'z') ==> UpperChar(c) == c
    ensures forall c :: 'A' <= c <= 'Z' ==> 'a' <= LowerChar(c) <= 'z' && UpperChar(LowerChar(c)) == c
    ensures forall c :: !('A' <= c <= 'Z') ==> LowerChar(c) == c
    ensures UpperChar('a') == 'A' && UpperChar('f') == 'F'
  {
  }

  // A line that is not blank, a comment or a host line is refused.
  lemma OtherLinesAreRefused(lines: seq<string>, c: Category)
    requires lines != [] && ReadHosts(lines[..|lines| - 1], c).Ok?
    requires var line := Strip(lines[|lines| - 1]);
             line != "" && line[0] != '#' && !("dhcp-host=" <= line)
    ensures ReadHosts(lines, c) == Err(UnsupportedDirective)
  {
  }

  // Reservations as they come back: in their file's category, without descriptions.
  function Plain(rs: seq<Reservation>, c: Category): seq<Reservation> {
    if rs == [] then [] else Plain(rs[..|rs| - 1], c) + [rs[|rs| - 1].(category := c, description := "")]
  }

  lemma {:induction false} HostLinesAppend(rs: seq<Reservation>, r: Reservation)
    ensures HostLines(rs + [r]) == HostLines(rs) + [HostLine(r)]
  {
    if rs == [] {
      assert rs + [r] == [r] && [r][1..] == [];
    } else {
      HostLinesAppend(rs[1..], r);
      assert (rs + [r])[1..] == rs[1..] + [r];
    }
  }

  lemma {:induction false} SkippedLines(lines: seq<string>, c: Category)
    requires forall l :: l in lines ==> Skipped(Strip(l))
    ensures ReadHosts(lines, c) == Ok([])
  {
    if lines != [] {
      SkippedLines(lines[..|lines| - 1], c);
      assert lines[|lines| - 1] in lines;
    }
  }

  lemma OneHostMore(lines: seq<string>, before: seq<Reservation>, line: string, r: Reservation, c: Category)
    requires ReadHosts(lines, c) == Ok(before)
    requires Strip(line) == line && !Skipped(line) && ReadHost(line, c) == Ok(r)
    ensures ReadHosts(lines + [line], c) == Ok(before + [r])
  {
    assert (lines + [line])[..|lines|] == lines;
  }

  lemma {:induction false} HostsReadBack(heading: seq<string>, rs: seq<Reservation>, c: Category)
    requires ReadHosts(heading, c) == Ok([]) && forall r :: r in rs ==> ValidReservation(r)
    ensures ReadHosts(heading + HostLines(rs), c) == Ok(Plain(rs, c))
    ensures forall l :: l in HostLines(rs) ==> OneLine(l)
  {
    if rs == [] {
      assert heading + HostLines(rs) == heading;
    } else {
      var before, last := rs[..|rs| - 1], rs[|rs| - 1];
      assert rs == before + [last];
      HostsReadBack(heading, before, c);
      HostLinesAppend(before, last);
      AnotherHost(heading + HostLines(before), before, last, c);
      assert heading + HostLines(rs) == heading + HostLines(before) + [HostLine(last)];
    }
  }

  lemma AnotherHost(lines: seq<string>, before: seq<Reservation>, last: Reservation, c: Category)
    requires ReadHosts(lines, c) == Ok(Plain(before, c)) && ValidReservation(last)
    ensures ReadHosts(lines + [HostLine(last)], c) == Ok(Plain(before + [last], c)) && OneLine(HostLine(last))
  {
    HostReadsBack(last, c);
    DenseIsTidy(HostLine(last));
    OneHostMore(lines, Plain(before, c), HostLine(last), last.(category := c, description := ""), c);
    assert (before + [last])[..|before|] == before;
  }

  // One line that ends in a visible character.
  predicate Plainly(s: string) { s != "" && !IsSpace(s[|s| - 1]) && OneLine(s) }

  lemma ShortLabels()
    ensures Plainly("Infrastructure") && Plainly("Serveurs")
  {
  }

  lemma NetworkLabel()
    ensures Plainly("Infrastructure réseau")
  {
  }

  lemma HomeLabel()
    ensures Plainly("Passerelles domotiques")
  {
  }

  lemma CriticalLabel()
    ensures Plainly("Équipements critiques")
  {
  }

  lemma LabelIsPlain(c: Category)
    ensures Plainly(Label(c))
  {
    match c
    case Infrastructure => ShortLabels();
    case Servers => ShortLabels();
    case Network => NetworkLabel();
    case HomeAutomation => HomeLabel();
    case Critical => CriticalLabel();
  }

  lemma TitleOf(text: string)
    requires Plainly(text)
    ensures OneLine("# " + text) && Trimmed("# " + text) && ("# " + text)[0] == '#'
  {
  }

  lemma LabelIsLine(c: Category)
    ensures OneLine("# " + Label(c)) && Trimmed("# " + Label(c)) && ("# " + Label(c))[0] == '#'
  {
    LabelIsPlain(c);
    TitleOf(Label(c));
  }

  lemma TitleIsLine()
    ensures OneLine("# Réservations gérées par Ohana-Agent") && Trimmed("# Réservations gérées par Ohana-Agent")
    ensures "# Réservations gérées par Ohana-Agent"[0] == '#'
  {
    var s := "# Réservations gérées par Ohana-Agent";
    forall i | 0 <= i < |s| ensures !IsBreak(s[i]) {}
  }

  lemma HeadingIsSkipped(c: Category)
    ensures forall l :: l in Heading(c) ==> Skipped(Strip(l)) && OneLine(l)
  {
    LabelIsLine(c);
    TitleIsLine();
    StripTrimmed("# " + Label(c));
    StripTrimmed("# Réservations gérées par Ohana-Agent");
    StripTrimmed(Rule());
    StripTrimmed("");
  }

  // Reading a printed category file gives its reservations in address order, descriptions emptied.
  lemma ReservationsRoundTrip(c: Category, rs: seq<Reservation>)
    requires forall r :: r in rs ==> ValidReservation(r)
    ensures ReadHosts(SplitLines(RenderReservations(c, rs)), c) == Ok(Plain(ByAddress(rs), c))
  {
    var sorted := ByAddress(rs);
    ByAddressSorts(rs);
    forall r | r in sorted ensures ValidReservation(r) {
      assert r in multiset(sorted);
      assert r in rs;
    }
    HeadingIsSkipped(c);
    SkippedLines(Heading(c), c);
    HostsReadBack(Heading(c), sorted, c);
    JoinIsUnlines(Heading(c) + HostLines(sorted));
    SplitUnlines(Heading(c) + HostLines(sorted));
  }
}
