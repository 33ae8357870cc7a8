/** Printing the settings and reading them back. */
module DhcpRoundTrip {
  import opened Common
  import opened Text
  import opened Dhcp

  // Without white space at all: no line break, nothing to strip.
  predicate Dense(s: string) { forall c :: c in s ==> !IsSpace(c) }

  lemma DenseIsTidy(s: string)
    requires Dense(s)
    ensures Trimmed(s) && OneLine(s) && Strip(s) == s
  {
    StripTrimmed(s);
  }

  // ------------------------------------------------------------ single lines

  lemma EntryReadsBack(key: string, value: string)
    requires key != "" && Trimmed(key) && key[0] != '#' && '=' !in key && Trimmed(value)
    ensures ParseLine(Entry(key, value)) == Some((key, value))
  {
    var line := Entry(key, value);
    assert line[0] == key[0] && (value != "" ==> line[|line| - 1] == value[|value| - 1]);
    StripTrimmed(line);
    SplitOnceAt(key, '=', value);
    StripTrimmed(key);
    StripTrimmed(value);
  }

  // Any value is read without the white space around it.
  lemma EntryIsStripped(key: string, value: string)
    requires key != "" && Trimmed(key) && key[0] != '#' && '=' !in key
    ensures ParseLine(Entry(key, value)) == Some((key, Strip(value)))
  {
    var line := Entry(key, value);
    assert line == key + ['='] + value && line[0] == key[0];
    StripRightKeepsHead(key + ['='], value);
    assert Strip(line) == key + ['='] + StripRight(value);
    SplitOnceAt(key, '=', StripRight(value));
    StripTrimmed(key);
    StripIgnoresTail(value);
  }

  predicate IsNote(line: string) { Trimmed(line) && (line == "" || line[0] == '#' || '=' !in line) }

  lemma NotesDeclareNothing(line: string)
    requires IsNote(line)
    ensures ParseLine(line) == None
  {
    StripTrimmed(line);
  }

  lemma {:induction false} ValuesOfNotes(lines: seq<string>, key: string)
    requires forall l :: l in lines ==> IsNote(l)
    ensures Values(lines, key) == []
  {
    if lines != [] {
      NotesDeclareNothing(lines[0]);
      ValuesOfNotes(lines[1..], key);
    }
  }

  lemma ValuesOfEntry(key: string, value: string, asked: string)
    requires key != "" && Trimmed(key) && key[0] != '#' && '=' !in key && Trimmed(value)
    ensures Values([Entry(key, value)], asked) == if asked == key then [value] else []
  {
    EntryReadsBack(key, value);
    ValuesOfOne(Entry(key, value), asked);
  }

  // --------------------------------------------------------------- characters

  lemma {:induction false} JoinChars(parts: seq<string>, sep: char)
    ensures forall c :: c in Join(parts, sep) ==> c == sep || exists p :: p in parts && c in p
  {
    if |parts| > 1 {
      JoinChars(parts[1..], sep);
      forall c | c in Join(parts, sep) ensures c == sep || exists p :: p in parts && c in p {
        if c in parts[0] { assert parts[0] in parts; }
        else if c != sep {
          assert c in Join(parts[1..], sep);
          var p :| p in parts[1..] && c in p;
          assert p in parts;
        }
      }
    } else if |parts| == 1 {
      assert parts[0] in parts;
    }
  }

  lemma {:induction false} SplitCovers(s: string, sep: char)
    ensures forall c :: c in s ==> c == sep || exists p :: p in Split(s, sep) && c in p
    decreases |s|
  {
    var i := Find(s, sep);
    if i < |s| {
      SplitCovers(s[i + 1..], sep);
      forall c | c in s ensures c == sep || exists p :: p in Split(s, sep) && c in p {
        assert s == s[..i] + [sep] + s[i + 1..];
        if c in s[..i] { assert s[..i] in Split(s, sep); }
        else if c != sep {
          var p :| p in Split(s[i + 1..], sep) && c in p;
          assert p in Split(s, sep);
        }
      }
    } else {
      assert s in Split(s, sep);
    }
  }

  lemma AddressIsDense(ip: IPv4)
    ensures Dense(AddressText(ip)) && ',' !in AddressText(ip)
  {
    AddressReadsBack(ip);
  }

  lemma {:induction false} AddressListIsDense(ips: seq<IPv4>)
    ensures |AddressTexts(ips)| == |ips| && forall t :: t in AddressTexts(ips) ==> Dense(t) && ',' !in t
  {
    if ips != [] {
      AddressIsDense(ips[0]);
      AddressListIsDense(ips[1..]);
    }
  }

  lemma AddressesAreDense(ips: seq<IPv4>)
    ensures Dense(Addresses(ips))
  {
    AddressListIsDense(ips);
    JoinChars(AddressTexts(ips), ',');
  }

  lemma HostNameIsDense(s: string)
    requires HostName(s)
    ensures Dense(s) && ',' !in s
  {
    SplitCovers(s, '.');
    forall c | c in s ensures HostChar(c) || c == '.' {
      if c != '.' {
        var l :| l in Split(s, '.') && c in l;
        assert HostLabel(l);
      }
    }
  }

  lemma LeaseIsDense(s: string)
    requires LeaseText(s)
    ensures Dense(s) && ',' !in s
  {
    forall c | c in s ensures IsDigit(c) || c in "mhdw" {
      var i :| 0 <= i < |s| && s[i] == c;
    }
  }

  lemma FourFields(a: string, b: string, c: string, d: string)
    requires Dense(a) && Dense(b) && Dense(c) && Dense(d)
    requires ',' !in a && ',' !in b && ',' !in c && ',' !in d
    ensures Dense(Join([a, b, c, d], ',')) && Split(Join([a, b, c, d], ','), ',') == [a, b, c, d]
  {
    JoinChars([a, b, c, d], ',');
    SplitJoin([a, b, c, d], ',');
  }

  lemma RangeIsDense(s: Settings)
    requires Valid(s)
    ensures Dense(RangeValue(s))
    ensures Split(RangeValue(s), ',') == [AddressText(s.rangeStart), AddressText(s.rangeEnd), AddressText(s.mask), s.lease]
  {
    AddressIsDense(s.rangeStart);
    AddressIsDense(s.rangeEnd);
    AddressIsDense(s.mask);
    LeaseIsDense(s.lease);
    FourFields(AddressText(s.rangeStart), AddressText(s.rangeEnd), AddressText(s.mask), s.lease);
  }

  // ------------------------------------------------------- what each key says

  predicate KeyOk(key: string) { key != "" && Trimmed(key) && key[0] != '#' && '=' !in key && OneLine(key) }

  lemma KeysAreOk()
    ensures KeyOk("interface") && KeyOk("dhcp-range") && KeyOk("dhcp-option")
    ensures KeyOk("domain") && KeyOk("local") && KeyOk("interface-name")
  {
  }

  lemma NotesAreNotes()
    ensures IsNote("") && IsNote(Rule()) && IsNote("# Ohana-House") && IsNote("# Configuration DHCP gérée par Ohana-Agent")
    ensures IsNote("bind-interfaces") && IsNote("domain-needed") && IsNote("bogus-priv") && IsNote("dhcp-authoritative")
    ensures IsNote("expand-hosts") && IsNote("no-hosts")
  {
  }

  // The shape of the first lines: notes, then one entry.
  lemma NotesThenEntry(notes: seq<string>, key: string, value: string, asked: string)
    requires (forall l :: l in notes ==> IsNote(l)) && KeyOk(key)
    ensures Values(notes + [Entry(key, value)], asked) == IfAsked(asked, key, Strip(value))
  {
    ValuesConcat(notes, [Entry(key, value)], asked);
    ValuesOfNotes(notes, asked);
    StrippedEntry(key, value, asked);
  }

  lemma HeadValues(s: Settings, key: string)
    requires Valid(s)
    ensures Values(HeadLines(s), key) == IfAsked(key, "interface", Strip(s.iface))
  {
    var notes := [Rule(), "# Ohana-House", "# Configuration DHCP gérée par Ohana-Agent", Rule(), ""];
    assert HeadLines(s) == notes + [Entry("interface", s.iface)];
    NotesAreNotes();
    KeysAreOk();
    NotesThenEntry(notes, "interface", s.iface, key);
  }

  lemma ModeValues(key: string)
    ensures Values(ModeLines(), key) == []
  {
    NotesAreNotes();
    ValuesOfNotes(ModeLines(), key);
  }

  lemma ValuesOfSix(a: string, b: string, c: string, d: string, e: string, f: string, asked: string)
    ensures Values([a, b, c, d, e, f], asked) ==
              Values([a], asked) + Values([b], asked) + Values([c], asked)
              + Values([d], asked) + Values([e], asked) + Values([f], asked)
  {
    ValuesConcat([a, b, c, d, e], [f], asked);
    ValuesConcat([a, b, c, d], [e], asked);
    ValuesConcat([a, b, c], [d], asked);
    ValuesConcat([a, b], [c], asked);
    ValuesConcat([a], [b], asked);
    assert [a, b, c, d, e, f] == [a, b, c, d, e] + [f] && [a, b, c, d, e] == [a, b, c, d] + [e];
    assert [a, b, c, d] == [a, b, c] + [d] && [a, b, c] == [a, b] + [c] && [a, b] == [a] + [b];
  }

  function IfAsked(asked: string, key: string, value: string): seq<string> { if asked == key then [value] else [] }

  lemma OneEntry(key: string, value: string, asked: string)
    requires KeyOk(key) && Trimmed(value)
    ensures Values([Entry(key, value)], asked) == IfAsked(asked, key, value)
  {
    ValuesOfEntry(key, value, asked);
  }

  lemma OneNote(note: string, asked: string)
    requires IsNote(note)
    ensures Values([note], asked) == []
  {
    ValuesOfNotes([note], asked);
  }

  // The shape of the middle lines: one entry, then three of another key, with notes between.
  lemma EntryThenThree(range: string, rv: string, option: string, a: string, b: string, c: string, note: string, asked: string)
    requires KeyOk(range) && KeyOk(option) && IsNote(note)
    requires Trimmed(rv) && Trimmed(a) && Trimmed(b) && Trimmed(c)
    ensures Values([Entry(range, rv), note, Entry(option, a), Entry(option, b), Entry(option, c), note], asked) ==
              IfAsked(asked, range, rv) + [] + IfAsked(asked, option, a) + IfAsked(asked, option, b)
              + IfAsked(asked, option, c) + []
  {
    ValuesOfSix(Entry(range, rv), note, Entry(option, a), Entry(option, b), Entry(option, c), note, asked);
    OneNote(note, asked);
    OneEntry(range, rv, asked);
    OneEntry(option, a, asked);
    OneEntry(option, b, asked);
    OneEntry(option, c, asked);
  }

  // Text after a dense prefix, and what the prefixes of the three options tell apart.
  lemma OptionPrefixes()
    ensures Dense("option:router,") && Dense("option:dns-server,") && Dense("option:ntp-server,")
    ensures "option:router,"[7] == 'r' && |"option:router,"| == 14
    ensures "option:dns-server,"[7] == 'd' && |"option:dns-server,"| == 18
    ensures "option:ntp-server,"[7] == 'n' && |"option:ntp-server,"| == 18
  {
  }

  lemma DenseConcat(a: string, b: string)
    requires Dense(a) && Dense(b)
    ensures Dense(a + b) && Trimmed(a + b) && OneLine(a + b)
  {
    DenseIsTidy(a + b);
  }

  function Options(s: Settings): seq<string> {
    ["option:router," + AddressText(s.gateway), "option:dns-server," + Addresses(s.dns),
     "option:ntp-server," + Addresses(s.ntp)]
  }

  lemma OptionsAreDense(s: Settings)
    ensures forall o :: o in Options(s) ==> Dense(o) && Trimmed(o) && OneLine(o)
  {
    OptionPrefixes();
    AddressIsDense(s.gateway);
    AddressesAreDense(s.dns);
    AddressesAreDense(s.ntp);
    DenseConcat("option:router,", AddressText(s.gateway));
    DenseConcat("option:dns-server,", Addresses(s.dns));
    DenseConcat("option:ntp-server,", Addresses(s.ntp));
  }

  lemma AskedOnce(asked: string, range: string, rv: string, option: string, a: string, b: string, c: string)
    requires range != option
    ensures IfAsked(asked, range, rv) + [] + IfAsked(asked, option, a) + IfAsked(asked, option, b)
              + IfAsked(asked, option, c) + []
            == if asked == range then [rv] else if asked == option then [a, b, c] else []
  {
  }

  lemma RangeIsNotOption()
    ensures "dhcp-range" != "dhcp-option"
  {
    assert "dhcp-range"[5] == 'r' && "dhcp-option"[5] == 'o';
  }

  lemma OptionValuesByKey(s: Settings, key: string)
    requires Valid(s)
    ensures Values(OptionLines(s), key) ==
              if key == "dhcp-range" then [RangeValue(s)] else if key == "dhcp-option" then Options(s) else []
  {
    RangeIsDense(s);
    DenseIsTidy(RangeValue(s));
    OptionsAreDense(s);
    var o := Options(s);
    assert o[0] in o && o[1] in o && o[2] in o;
    EmptyNote();
    KeysAreOk();
    EntryThenThree("dhcp-range", RangeValue(s), "dhcp-option", o[0], o[1], o[2], "", key);
    RangeIsNotOption();
    AskedOnce(key, "dhcp-range", RangeValue(s), "dhcp-option", o[0], o[1], o[2]);
  }

  lemma EmptyNote()
    ensures IsNote("")
  {
  }

  // The shape of the last lines: two entries, notes, and an entry of any value.
  lemma LastEntries(domain: string, d: string, local: string, l: string, n1: string, n2: string, n3: string,
                    name: string, n: string, asked: string)
    requires KeyOk(domain) && KeyOk(local) && KeyOk(name) && IsNote(n1) && IsNote(n2) && IsNote(n3)
    requires Trimmed(d) && Trimmed(l)
    ensures Values([Entry(domain, d), Entry(local, l), n1, n2, n3, Entry(name, n)], asked)
              == IfAsked(asked, domain, d) + IfAsked(asked, local, l) + IfAsked(asked, name, Strip(n))
  {
    ValuesOfSix(Entry(domain, d), Entry(local, l), n1, n2, n3, Entry(name, n), asked);
    OneNote(n1, asked);
    OneNote(n2, asked);
    OneNote(n3, asked);
    OneEntry(domain, d, asked);
    OneEntry(local, l, asked);
    StrippedEntry(name, n, asked);
    NothingBetween(IfAsked(asked, domain, d), IfAsked(asked, local, l), IfAsked(asked, name, Strip(n)));
  }

  lemma NothingBetween(a: seq<string>, b: seq<string>, c: seq<string>)
    ensures a + b + [] + [] + [] + c == a + b + c
  {
  }

  lemma StrippedEntry(key: string, value: string, asked: string)
    requires KeyOk(key)
    ensures Values([Entry(key, value)], asked) == IfAsked(asked, key, Strip(value))
  {
    EntryIsStripped(key, value);
    ValuesOfOne(Entry(key, value), asked);
  }

  // The name the interface answers to.
  function InterfaceName(s: Settings, node: string): string { node + "." + s.domain + "," + s.iface + "/4" }

  lemma TailValues(s: Settings, node: string, key: string)
    requires Valid(s)
    ensures Values(TailLines(s, node), key) ==
              IfAsked(key, "domain", s.domain) + IfAsked(key, "local", "/" + s.domain + "/")
              + IfAsked(key, "interface-name", Strip(InterfaceName(s, node)))
  {
    HostNameIsDense(s.domain);
    DenseIsTidy(s.domain);
    NotesAreNotes();
    KeysAreOk();
    LastEntries("domain", s.domain, "local", "/" + s.domain + "/", "expand-hosts", "", "no-hosts",
                "interface-name", InterfaceName(s, node), key);
  }

  lemma CollectByPart<A, B>(head: seq<A>, mode: seq<A>, options: seq<A>, tail: seq<A>, f: A -> seq<B>)
    requires Collect(mode, f) == []
    ensures Collect(head + mode + options + tail, f) == Collect(head, f) + Collect(options, f) + Collect(tail, f)
  {
    CollectConcat(head + mode + options, tail, f);
    CollectConcat(head + mode, options, f);
    CollectConcat(head, mode, f);
  }

  lemma ValuesByPart(head: seq<string>, mode: seq<string>, options: seq<string>, tail: seq<string>, key: string)
    requires Values(mode, key) == []
    ensures Values(head + mode + options + tail, key) == Values(head, key) + Values(options, key) + Values(tail, key)
  {
    CollectByPart(head, mode, options, tail, ValuesFor(key));
  }

  lemma KeysDiffer()
    ensures "interface" != "dhcp-range" && "interface" != "dhcp-option" && "interface" != "domain"
    ensures "interface" != "local" && "interface" != "interface-name"
    ensures "dhcp-range" != "dhcp-option" && "dhcp-range" != "domain" && "dhcp-range" != "local"
    ensures "dhcp-range" != "interface-name" && "dhcp-option" != "domain" && "dhcp-option" != "local"
    ensures "dhcp-option" != "interface-name" && "domain" != "local" && "domain" != "interface-name"
    ensures "local" != "interface-name"
  {
    assert |"local"| == 5 && |"domain"| == 6 && |"interface"| == 9 && |"dhcp-range"| == 10;
    assert |"dhcp-option"| == 11 && |"interface-name"| == 14;
  }

  // The printed file declares each key exactly with these values, and every other key not at all.
  lemma MainValues(s: Settings, node: string, key: string)
    requires Valid(s)
    ensures Values(MainLines(s, node), key) ==
              if key == "interface" then [Strip(s.iface)]
              else if key == "dhcp-range" then [RangeValue(s)]
              else if key == "dhcp-option" then Options(s)
              else if key == "domain" then [s.domain]
              else if key == "local" then ["/" + s.domain + "/"]
              else if key == "interface-name" then [Strip(InterfaceName(s, node))]
              else []
  {
    ModeValues(key);
    ValuesByPart(HeadLines(s), ModeLines(), OptionLines(s), TailLines(s, node), key);
    HeadValues(s, key);
    OptionValuesByKey(s, key);
    TailValues(s, node, key);
    KeysDiffer();
    OneOfSix(key, "interface", Strip(s.iface), "dhcp-range", RangeValue(s), "dhcp-option", Options(s), "domain", s.domain,
             "local", "/" + s.domain + "/", "interface-name", Strip(InterfaceName(s, node)));
  }

  // Of six different keys at most one is asked for.
  lemma OneOfSix(asked: string, a: string, av: string, b: string, bv: string, c: string, cv: seq<string>, d: string,
                 dv: string, e: string, ev: string, f: string, fv: string)
    requires a != b && a != c && a != d && a != e && a != f && b != c && b != d && b != e && b != f
    requires c != d && c != e && c != f && d != e && d != f && e != f
    ensures IfAsked(asked, a, av) + (if asked == b then [bv] else if asked == c then cv else [])
              + (IfAsked(asked, d, dv) + IfAsked(asked, e, ev) + IfAsked(asked, f, fv))
            == if asked == a then [av] else if asked == b then [bv] else if asked == c then cv
               else if asked == d then [dv] else if asked == e then [ev] else if asked == f then [fv] else []
  {
  }

  // ------------------------------------------------------------------ options

  lemma {:induction false} AddressListReadsBack(ips: seq<IPv4>)
    ensures ParseAddresses(AddressTexts(ips)) == Some(ips)
  {
    if ips != [] {
      AddressIsDense(ips[0]);
      DenseIsTidy(AddressText(ips[0]));
      AddressReadsBack(ips[0]);
      AddressListReadsBack(ips[1..]);
      assert ips == [ips[0]] + ips[1..];
    }
  }

  lemma OptionReadsBack(prefix: string, ips: seq<IPv4>, rest: seq<string>)
    requires ips != []
    ensures OptionValues([prefix + Addresses(ips)] + rest, prefix) == Ok(ips)
  {
    var text := prefix + Addresses(ips);
    var options := [text] + rest;
    assert prefix <= options[0] && options[0][|prefix|..] == Addresses(ips);
    AddressListIsDense(ips);
    SplitJoin(AddressTexts(ips), ',');
    assert Split(options[0][|prefix|..], ',') == AddressTexts(ips);
    AddressListReadsBack(ips);
  }

  lemma SkipOption(other: string, rest: seq<string>, prefix: string)
    requires |other| > 7 && |prefix| > 7 && other[7] != prefix[7]
    ensures OptionValues([other] + rest, prefix) == OptionValues(rest, prefix)
  {
    assert ([other] + rest)[1..] == rest;
  }

  // Three options of different names read back in any order they are asked for.
  lemma ThreeOptions(p1: string, a: seq<IPv4>, p2: string, b: seq<IPv4>, p3: string, c: seq<IPv4>)
    requires |p1| > 7 && |p2| > 7 && |p3| > 7 && p1[7] != p2[7] && p1[7] != p3[7] && p2[7] != p3[7]
    requires a != [] && b != [] && c != []
    ensures var options := [p1 + Addresses(a), p2 + Addresses(b), p3 + Addresses(c)];
            OptionValues(options, p1) == Ok(a) && OptionValues(options, p2) == Ok(b) && OptionValues(options, p3) == Ok(c)
  {
    var o1, o2, o3 := p1 + Addresses(a), p2 + Addresses(b), p3 + Addresses(c);
    assert [o1, o2, o3] == [o1] + [o2, o3] && [o2, o3] == [o2] + [o3] && [o3] == [o3] + [];
    OptionReadsBack(p1, a, [o2, o3]);
    OptionReadsBack(p2, b, [o3]);
    OptionReadsBack(p3, c, []);
    SkipOption(o1, [o2, o3], p2);
    SkipOption(o1, [o2, o3], p3);
    SkipOption(o2, [o3], p3);
  }

  lemma OptionsReadBack(s: Settings)
    requires Valid(s)
    ensures OptionValues(Options(s), "option:router,") == Ok([s.gateway])
    ensures OptionValues(Options(s), "option:dns-server,") == Ok(s.dns)
    ensures OptionValues(Options(s), "option:ntp-server,") == Ok(s.ntp)
  {
    assert AddressTexts([s.gateway]) == [AddressText(s.gateway)] by { assert [s.gateway][1..] == []; }
    assert Addresses([s.gateway]) == AddressText(s.gateway);
    OptionPrefixes();
    ThreeOptions("option:router,", [s.gateway], "option:dns-server,", s.dns, "option:ntp-server,", s.ntp);
  }

  // ---------------------------------------------------------------- round trip

  lemma HeadingIsLine()
    ensures OneLine("# Configuration DHCP gérée par Ohana-Agent")
  {
    HeadingBegins();
    HeadingEnds();
    var begin, end := "# Configuration DHCP ", "gérée par Ohana-Agent";
    assert "# Configuration DHCP gérée par Ohana-Agent" == begin + end;
    assert forall c :: c in begin + end ==> c in begin || c in end;
  }

  lemma HeadingBegins()
    ensures OneLine("# Configuration DHCP ")
  {
  }

  lemma HeadingEnds()
    ensures OneLine("gérée par Ohana-Agent")
  {
  }

  lemma NotesAreLines()
    ensures OneLine("") && OneLine(Rule()) && OneLine("# Ohana-House")
    ensures OneLine("bind-interfaces") && OneLine("domain-needed") && OneLine("bogus-priv")
  {
  }

  lemma MoreNotesAreLines()
    ensures OneLine("dhcp-authoritative") && OneLine("expand-hosts") && OneLine("no-hosts")
  {
  }

  lemma EntryIsLine(key: string, value: string)
    requires KeyOk(key) && OneLine(value)
    ensures OneLine(Entry(key, value))
  {
  }

  lemma OneLineConcat(a: string, b: string, c: string, d: string, e: string, f: string)
    requires OneLine(a) && OneLine(b) && OneLine(c) && OneLine(d) && OneLine(e) && OneLine(f)
    ensures OneLine(a + b + c + d + e + f) && OneLine(a + b + c)
  {
  }

  lemma HeadLinesAreLines(s: Settings)
    requires OneLine(s.iface)
    ensures forall l :: l in HeadLines(s) ==> OneLine(l)
  {
    HeadingIsLine();
    NotesAreLines();
    KeysAreOk();
    EntryIsLine("interface", s.iface);
  }

  lemma OptionLinesAreLines(s: Settings)
    requires Valid(s)
    ensures forall l :: l in OptionLines(s) ==> OneLine(l)
  {
    RangeIsDense(s);
    DenseIsTidy(RangeValue(s));
    OptionsAreDense(s);
    NotesAreLines();
    KeysAreOk();
    var o := Options(s);
    assert o[0] in o && o[1] in o && o[2] in o;
    EntryIsLine("dhcp-range", RangeValue(s));
    EntryIsLine("dhcp-option", o[0]);
    EntryIsLine("dhcp-option", o[1]);
    EntryIsLine("dhcp-option", o[2]);
  }

  lemma TailLinesAreLines(s: Settings, node: string)
    requires Valid(s) && OneLine(s.iface) && OneLine(node)
    ensures forall l :: l in TailLines(s, node) ==> OneLine(l)
  {
    HostNameIsDense(s.domain);
    DenseIsTidy(s.domain);
    NotesAreLines();
    MoreNotesAreLines();
    KeysAreOk();
    assert OneLine("/") && OneLine(".") && OneLine(",") && OneLine("/4");
    OneLineConcat(node, ".", s.domain, ",", s.iface, "/4");
    OneLineConcat("/", s.domain, "/", "", "", "");
    EntryIsLine("domain", s.domain);
    EntryIsLine("local", "/" + s.domain + "/");
    EntryIsLine("interface-name", node + "." + s.domain + "," + s.iface + "/4");
  }

  lemma MainLinesAreLines(s: Settings, node: string)
    requires Valid(s) && OneLine(s.iface) && OneLine(node)
    ensures forall l :: l in MainLines(s, node) ==> OneLine(l)
  {
    HeadLinesAreLines(s);
    NotesAreLines();
    MoreNotesAreLines();
    OptionLinesAreLines(s);
    TailLinesAreLines(s, node);
  }

  lemma RangeReadsBack(s: Settings)
    requires Valid(s)
    ensures var parts := Split(RangeValue(s), ',');
            |parts| == 4 && ParseAddress(Strip(parts[0])) == Some(s.rangeStart)
            && ParseAddress(Strip(parts[1])) == Some(s.rangeEnd)
            && ParseAddress(Strip(parts[2])) == Some(s.mask) && Strip(parts[3]) == s.lease
  {
    RangeIsDense(s);
    LeaseIsDense(s.lease);
    DenseIsTidy(s.lease);
    RangeAddressesReadBack(s);
  }

  // What a file says under four keys decides the settings read from it.
  lemma ValuesDecide(lines: seq<string>, s: Settings, iface: string)
    requires Valid(s)
    requires Values(lines, "interface") == [iface] && Values(lines, "domain") == [s.domain]
    requires Values(lines, "dhcp-range") == [RangeValue(s)] && Values(lines, "dhcp-option") == Options(s)
    ensures Gather(lines) == Ok(s.(iface := iface))
  {
    OptionsReadBack(s);
    RangeReadsBack(s);
  }

  // The settings as they come back: the interface without the white space around it, which is
  // missed when nothing else is left.
  function AsRead(s: Settings): Result<Settings, ReadError> {
    if Strip(s.iface) == "" then Err(BadSettings) else Ok(s.(iface := Strip(s.iface)))
  }

  lemma LinesReadBack(s: Settings, node: string)
    requires Valid(s)
    ensures SettingsOfLines(MainLines(s, node)) == AsRead(s)
  {
    MainValues(s, node, "interface");
    MainValues(s, node, "dhcp-range");
    MainValues(s, node, "dhcp-option");
    MainValues(s, node, "domain");
    ValuesDecide(MainLines(s, node), s, Strip(s.iface));
    BuildKeepsValid(s);
  }

  lemma RangeAddressesReadBack(s: Settings)
    ensures ParseAddress(Strip(AddressText(s.rangeStart))) == Some(s.rangeStart)
    ensures ParseAddress(Strip(AddressText(s.rangeEnd))) == Some(s.rangeEnd)
    ensures ParseAddress(Strip(AddressText(s.mask))) == Some(s.mask)
  {
    AddressListReadsBack([s.rangeStart]);
    AddressListReadsBack([s.rangeEnd]);
    AddressListReadsBack([s.mask]);
    forall ip: IPv4 ensures ParseAddress(Strip(AddressText(ip))) == Some(ip) {
      AddressIsDense(ip);
      DenseIsTidy(AddressText(ip));
      AddressReadsBack(ip);
    }
  }

  lemma BuildKeepsValid(s: Settings)
    requires Valid(s)
    ensures Build(s.(iface := Strip(s.iface))) == AsRead(s)
  {
    StripYieldsTrimmed(s.iface);
    StripTrimmed(Strip(s.iface));
    LeaseIsDense(s.lease);
    DenseIsTidy(s.lease);
    HostNameIsDense(s.domain);
    DenseIsTidy(s.domain);
  }

  lemma MainLinesComeBack(s: Settings, node: string)
    requires Valid(s) && OneLine(s.iface) && OneLine(node)
    ensures SplitLines(RenderMain(s, node)) == MainLines(s, node)
  {
    MainLinesAreLines(s, node);
    JoinIsUnlines(MainLines(s, node));
    SplitUnlines(MainLines(s, node));
  }

  // Reading the printed file gives back the settings, whatever the server lists, as long as the
  // interface and the node name keep to one line, exactly when the interface begins and ends with
  // no character that the parser strips.
  lemma SettingsRoundTrip(s: Settings, node: string)
    requires Valid(s) && OneLine(s.iface) && OneLine(node)
    ensures ReadSettings(RenderMain(s, node)) == AsRead(s)
    ensures ReadSettings(RenderMain(s, node)) == Ok(s) <==> Trimmed(s.iface)
  {
    MainLinesComeBack(s, node);
    LinesReadBack(s, node);
    StripYieldsTrimmed(s.iface);
    if Trimmed(s.iface) { StripTrimmed(s.iface); }
  }

  // The range line in dnsmasq's order.
  lemma RangeSays(s: Settings)
    ensures RangeValue(s) == AddressText(s.rangeStart) + ","
              + (AddressText(s.rangeEnd) + "," + (AddressText(s.mask) + "," + s.lease))
  {
    JoinFour(AddressText(s.rangeStart), AddressText(s.rangeEnd), AddressText(s.mask), s.lease, ',');
  }

  // The six switches of the printed file, each on a line of its own.
  lemma SwitchesAreSet(s: Settings, node: string)
    requires Valid(s) && OneLine(s.iface) && OneLine(node)
    ensures forall flag :: flag in ["bind-interfaces", "domain-needed", "bogus-priv", "dhcp-authoritative",
                                    "expand-hosts", "no-hosts"] ==>
              flag in SplitLines(RenderMain(s, node))
  {
    MainLinesComeBack(s, node);
    assert forall l :: l in ModeLines() || l in TailLines(s, node) ==> l in MainLines(s, node);
    var mode, tail := ModeLines(), TailLines(s, node);
    assert mode[0] == "bind-interfaces" && mode[2] == "domain-needed" && mode[3] == "bogus-priv";
    assert mode[5] == "dhcp-authoritative" && tail[2] == "expand-hosts" && tail[4] == "no-hosts";
  }

  // Files printed for two nodes differ: an agent moved to another node finds its main file outdated.
  lemma NodesTellFilesApart(s: Settings, a: string, b: string)
    requires Valid(s) && OneLine(s.iface) && Dense(a) && Dense(b) && a != b
    ensures RenderMain(s, a) != RenderMain(s, b)
  {
    DenseIsTidy(a);
    DenseIsTidy(b);
    MainLinesComeBack(s, a);
    MainLinesComeBack(s, b);
    MainValues(s, a, "interface-name");
    MainValues(s, b, "interface-name");
    KeysDiffer();
    NamesDiffer(s, a, b);
  }

  lemma NamesDiffer(s: Settings, a: string, b: string)
    requires Trimmed(a) && Trimmed(b) && a != b
    ensures Strip(InterfaceName(s, a)) != Strip(InterfaceName(s, b))
  {
    var rest := "." + s.domain + "," + s.iface + "/4";
    assert InterfaceName(s, a) == a + rest && InterfaceName(s, b) == b + rest;
    StripTrimmed(a + rest);
    StripTrimmed(b + rest);
    if |a| == |b| {
      var i :| 0 <= i < |a| && a[i] != b[i];
      assert (a + rest)[i] != (b + rest)[i];
    } else {
      assert |a + rest| != |b + rest|;
    }
  }

  // The smallest documents there are, for any address and mask: the round trip is about something.
  lemma SmallestSettings(ip: IPv4, mask: IPv4, node: string) returns (s: Settings)
    requires OneLine(node)
    ensures Valid(s) && s.gateway == ip && s.mask == mask && ReadSettings(RenderMain(s, node)) == Ok(s)
  {
    s := Smallest("e", ip, mask);
    SmallestIsValid("e", ip, mask);
    SettingsRoundTrip(s, node);
  }

  // A document may name an interface that ends in a unit separator; it reads back without it.
  lemma SeparatorIsLost(ip: IPv4, mask: IPv4, node: string) returns (s: Settings)
    requires OneLine(node)
    ensures Valid(s) && OneLine(s.iface) && s.iface == "e\U{1f}"
    ensures ReadSettings(RenderMain(s, node)) == Ok(s.(iface := "e"))
  {
    s := Smallest("e\U{1f}", ip, mask);
    SmallestIsValid("e\U{1f}", ip, mask);
    SettingsRoundTrip(s, node);
    assert s.iface[..1] == "e";
  }

  function Smallest(iface: string, ip: IPv4, mask: IPv4): Settings {
    Settings(iface, ip, ip, mask, "1h", ip, [ip], [ip], "d")
  }

  lemma SmallestIsValid(iface: string, ip: IPv4, mask: IPv4)
    requires iface != "" && Stripped(iface)
    ensures Valid(Smallest(iface, ip, mask))
  {
    var s := Smallest(iface, ip, mask);
    assert Find(s.domain, '.') == 1 && Split(s.domain, '.') == ["d"];
    assert LeaseText(s.lease) && HostLabel("d");
  }

  // ------------------------------------------------------------------- upgrade

  lemma {:induction false} ValuesAreOneLine(lines: seq<string>, key: string)
    requires forall l :: l in lines ==> OneLine(l)
    ensures forall v :: v in Values(lines, key) ==> OneLine(v)
  {
    if lines != [] {
      ValuesAreOneLine(lines[1..], key);
      var line := Strip(lines[0]);
      StripYieldsTrimmed(lines[0]);
      if line != "" && line[0] != '#' && '=' in line {
        var (k, v) := SplitOnce(line, '=');
        StripYieldsTrimmed(v);
        assert lines[0] in lines;
        assert forall c :: c in v ==> c in line;
      }
    }
  }

  lemma {:induction false} LowerAt(s: string, i: nat)
    requires i < |s|
    ensures |Lower(s)| == |s| && Lower(s)[i] == LowerChar(s[i]) && Lower(s[..i]) == Lower(s)[..i] && Lower(s[i..]) == Lower(s)[i..]
  {
    if i > 0 {
      LowerAt(s[1..], i - 1);
      assert s[..i][1..] == s[1..][..i - 1] && s[i..] == s[1..][i - 1..];
    } else {
      LowerLength(s);
      assert s[0..] == s;
    }
  }

  lemma {:induction false} LowerLength(s: string)
    ensures |Lower(s)| == |s| && forall c :: c in Lower(s) ==> exists d :: d in s && c == LowerChar(d)
  {
    if s != "" {
      LowerLength(s[1..]);
      forall c | c in Lower(s) ensures exists d :: d in s && c == LowerChar(d) {
        if c == LowerChar(s[0]) { assert s[0] in s; }
        else {
          var d :| d in s[1..] && c == LowerChar(d);
          assert d in s;
        }
      }
    }
  }

  lemma {:induction false} LowerTwice(s: string)
    ensures Lower(Lower(s)) == Lower(s)
  {
    if s != "" {
      LowerTwice(s[1..]);
      assert Lower(s)[1..] == Lower(s[1..]);
    }
  }

  lemma {:induction false} FindInLower(s: string)
    ensures Find(Lower(s), '.') == Find(s, '.')
  {
    if s != "" {
      FindInLower(s[1..]);
      assert Lower(s)[1..] == Lower(s[1..]);
    }
  }

  lemma LowerLabel(l: string)
    requires HostLabel(l)
    ensures HostLabel(Lower(l))
  {
    LowerLength(l);
    LowerAt(l, 0);
  }

  lemma {:induction false} LowerLabels(s: string)
    requires forall l :: l in Split(s, '.') ==> HostLabel(l)
    ensures forall l :: l in Split(Lower(s), '.') ==> HostLabel(l)
    decreases |s|
  {
    var i := Find(s, '.');
    FindInLower(s);
    LowerLength(s);
    if i == |s| {
      LowerLabel(s);
    } else {
      LowerAt(s, i);
      assert s[..i] in Split(s, '.');
      LowerLabel(s[..i]);
      forall l | l in Split(s[i + 1..], '.') ensures HostLabel(l) { assert l in Split(s, '.'); }
      LowerLabels(s[i + 1..]);
      assert Lower(s)[i + 1..] == Lower(s[i + 1..]) by {
        if i + 1 < |s| { LowerAt(s, i + 1); }
      }
    }
  }

  lemma BuildYieldsValid(s: Settings)
    requires Build(s).Ok?
    ensures Valid(Build(s).value) && Build(s).value.iface == Strip(s.iface) && Trimmed(Strip(s.iface))
  {
    StripYieldsTrimmed(s.iface);
    LowerTwice(Strip(s.domain));
    LowerLength(Strip(s.domain));
    LowerLabels(Strip(s.domain));
  }

  lemma GatheredInterface(lines: seq<string>)
    requires Gather(lines).Ok?
    ensures Single(lines, "interface") == Ok(Gather(lines).value.iface)
  {
  }

  // Whatever file they were read from, settings can be printed and read back.
  lemma ReadSettingsAreValid(text: string)
    requires ReadSettings(text).Ok?
    ensures var s := ReadSettings(text).value; Valid(s) && OneLine(s.iface) && Trimmed(s.iface)
  {
    var lines := SplitLines(text);
    LinesAreLines(text);
    BuildYieldsValid(Gather(lines).value);
    GatheredInterface(lines);
    ValuesAreOneLine(lines, "interface");
    var iface := Single(lines, "interface").value;
    assert iface in Values(lines, "interface");
    StripYieldsTrimmed(iface);
  }

  // Upgrading a file twice rewrites it at most once: what the first upgrade prints, the second one
  // would print again.
  lemma UpgradeIsIdempotent(text: string, node: string)
    requires ReadSettings(text).Ok? && OneLine(node)
    ensures var printed := RenderMain(ReadSettings(text).value, node);
            ReadSettings(printed) == ReadSettings(text) && RenderMain(ReadSettings(printed).value, node) == printed
  {
    ReadSettingsAreValid(text);
    SettingsRoundTrip(ReadSettings(text).value, node);
  }
}
