/** Writing the whole DHCP configuration: every managed file, or none of them. */
module DhcpFiles {
  import opened Common
  import opened Text
  import opened Dhcp
  import opened DhcpRoundTrip
  import opened Leases

  type Path = string
  type Files = map<Path, string>

  datatype Configuration = Configuration(settings: Settings, reservations: seq<Reservation>)

  // How one step of a write ends: it is done, it fails before its effect, or it fails after it.
  datatype Fault = Fine | Untouched | Replaced

  datatype WriteError = StepFailed(step: nat) | Unreadable(error: ReadError)

  function OfCategory(rs: seq<Reservation>, c: Category): seq<Reservation> {
    if rs == [] then [] else (if rs[0].category == c then [rs[0]] else []) + OfCategory(rs[1..], c)
  }

  predicate SameFile(a: Files, b: Files, p: Path) {
    (p in a <==> p in b) && (p in a && p in b ==> a[p] == b[p])
  }

  // Files that are the same at every path are the same files.
  lemma SameFilesAreEqual(a: Files, b: Files)
    ensures (forall p :: SameFile(a, b, p)) <==> a == b
  {
    if forall p :: SameFile(a, b, p) {
      forall p ensures p in a <==> p in b { assert SameFile(a, b, p); }
      forall p | p in a ensures a[p] == b[p] { assert SameFile(a, b, p); }
    }
  }

  // Would an upgrade rewrite a main file with these contents? It compares them as text.
  predicate NeedsUpgrade(contents: string, node: string) {
    ReadSettings(contents).Ok? && RenderMain(ReadSettings(contents).value, node) != ReadText(contents)
  }

  class Repository {
    const mainPath: Path
    const categoryPaths: map<Category, Path>
    const node: string
    const reloadPath: Path
    var files: Files

    // No two roles share a file.
    ghost predicate Valid() {
      && mainPath !in categoryPaths.Values && reloadPath !in categoryPaths.Values && mainPath != reloadPath
      && forall a, b :: a in categoryPaths && b in categoryPaths && categoryPaths[a] == categoryPaths[b] ==> a == b
    }

    constructor (mainPath: Path, categoryPaths: map<Category, Path>, node: string, reloadPath: Path, files: Files)
      requires mainPath !in categoryPaths.Values && reloadPath !in categoryPaths.Values && mainPath != reloadPath
      requires forall a, b :: a in categoryPaths && b in categoryPaths && categoryPaths[a] == categoryPaths[b] ==> a == b
      ensures Valid() && this.files == files && this.mainPath == mainPath && this.categoryPaths == categoryPaths
      ensures this.node == node && this.reloadPath == reloadPath
    {
      this.mainPath, this.categoryPaths, this.node := mainPath, categoryPaths, node;
      this.reloadPath, this.files := reloadPath, files;
    }

    ghost function Managed(): set<Path> { {mainPath} + categoryPaths.Values }

    // What the printed file at a path must be.
    ghost predicate Printed(config: Configuration, p: Path, text: string) {
      && (p == mainPath ==> text == RenderMain(config.settings, node))
      && (forall c :: c in categoryPaths && categoryPaths[c] == p ==>
            text == RenderReservations(c, OfCategory(config.reservations, c)))
    }

    // One step under its fault; atomic, so the file holds its old or its new text.
    method AtomicWrite(p: Path, text: string, fault: Fault) returns (ok: bool)
      modifies this
      ensures ok == fault.Fine?
      ensures files == if fault.Untouched? then old(files) else old(files)[p := text]
    {
      if !fault.Untouched? { files := files[p := text]; }
      ok := fault.Fine?;
    }

    method Render(config: Configuration) returns (rendered: Files)
      requires Valid()
      ensures rendered.Keys == Managed()
      ensures forall p :: p in rendered ==> Printed(config, p, rendered[p])
    {
      rendered := map[mainPath := RenderMain(config.settings, node)];
      var todo := categoryPaths.Keys;
      while todo != {}
        invariant todo <= categoryPaths.Keys
        invariant RenderedBut(config, rendered, todo)
        decreases todo
      {
        var c :| c in todo;
        RenderOne(config, rendered, todo, c);
        rendered := rendered[categoryPaths[c] := RenderReservations(c, OfCategory(config.reservations, c))];
        todo := todo - {c};
      }
      RenderedAll(config, rendered);
    }

    // The main file is there, and the file of every category except those still to do.
    ghost predicate RenderedBut(config: Configuration, rendered: Files, todo: set<Category>) {
      && mainPath in rendered && rendered[mainPath] == RenderMain(config.settings, node)
      && rendered.Keys <= Managed()
      && forall c :: c in categoryPaths && c !in todo ==>
           categoryPaths[c] in rendered
           && rendered[categoryPaths[c]] == RenderReservations(c, OfCategory(config.reservations, c))
    }

    lemma RenderOne(config: Configuration, rendered: Files, todo: set<Category>, c: Category)
      requires Valid() && todo <= categoryPaths.Keys && c in todo && RenderedBut(config, rendered, todo)
      ensures RenderedBut(config, rendered[categoryPaths[c] := RenderReservations(c, OfCategory(config.reservations, c))],
                          todo - {c})
    {
      var path := categoryPaths[c];
      assert path in categoryPaths.Values;
      forall other | other in categoryPaths && other !in todo ensures categoryPaths[other] != path {}
    }

    lemma RenderedAll(config: Configuration, rendered: Files)
      requires Valid() && RenderedBut(config, rendered, {})
      ensures rendered.Keys == Managed() && forall p :: p in rendered ==> Printed(config, p, rendered[p])
    {
    }

    // Put back what was there: files that existed with their contents, the others absent again.
    method Restore(previous: map<Path, Option<string>>)
      modifies this
      ensures forall p :: p !in previous ==> SameFile(files, old(files), p)
      ensures forall p :: p in previous ==>
                (p in files <==> previous[p].Some?) && (previous[p].Some? ==> files[p] == previous[p].value)
    {
      var todo := previous.Keys;
      while todo != {}
        invariant todo <= previous.Keys
        invariant forall p :: p !in previous ==> SameFile(files, old(files), p)
        invariant forall p :: p in previous && p !in todo ==>
                    (p in files <==> previous[p].Some?) && (previous[p].Some? ==> files[p] == previous[p].value)
        decreases todo
      {
        var p :| p in todo;
        if previous[p].Some? {
          files := files[p := previous[p].value];
        } else {
          files := files - {p};
        }
        todo := todo - {p};
      }
    }

    // Write the files one by one, up to the first failing step.
    method WriteAll(rendered: Files, faults: nat -> Fault) returns (ok: bool, steps: nat)
      modifies this
      ensures forall p :: p !in rendered ==> SameFile(files, old(files), p)
      ensures ok ==> steps == |rendered.Keys| && forall p :: p in rendered ==> p in files && files[p] == rendered[p]
      ensures if ok then forall k :: 0 <= k < |rendered.Keys| ==> faults(k).Fine?
              else steps < |rendered.Keys| && !faults(steps).Fine?
    {
      steps := 0;
      var todo := rendered.Keys;
      while todo != {}
        invariant todo <= rendered.Keys && steps + |todo| == |rendered.Keys|
        invariant forall k :: 0 <= k < steps ==> faults(k).Fine?
        invariant forall p :: p !in rendered ==> SameFile(files, old(files), p)
        invariant forall p :: p in rendered && p !in todo ==> p in files && files[p] == rendered[p]
        decreases todo
      {
        var p :| p in todo;
        ok := AtomicWrite(p, rendered[p], faults(steps));
        if !ok { return; }
        steps, todo := steps + 1, todo - {p};
      }
      ok := true;
    }

    // Validate, then ask for the reload.
    method ValidateAndReload(validating: Fault, reloading: Fault) returns (ok: bool)
      modifies this
      ensures ok <==> validating.Fine? && reloading.Fine?
      ensures forall p :: p != reloadPath ==> SameFile(files, old(files), p)
    {
      ok := validating.Fine?;
      if ok { ok := AtomicWrite(reloadPath, "reload", reloading); }
    }

    // All the rendered files, or none: a failing step puts back what was there.
    method WriteRendered(rendered: Files, faults: nat -> Fault) returns (ok: bool, steps: nat)
      requires reloadPath !in rendered
      modifies this
      ensures forall p :: p !in rendered && p != reloadPath ==> SameFile(files, old(files), p)
      ensures ok ==> forall p :: p in rendered ==> p in files && files[p] == rendered[p]
      ensures !ok ==> forall p :: p in rendered ==> SameFile(files, old(files), p)
      ensures ok <==> forall k :: 0 <= k < |rendered.Keys| + 2 ==> faults(k).Fine?
    {
      var previous := map p | p in rendered :: if p in files then Some(files[p]) else None;
      ok, steps := WriteAll(rendered, faults);
      ghost var written := files;
      if ok {
        ok := ValidateAndReload(faults(steps), faults(steps + 1));
        forall p | p in rendered ensures SameFile(files, written, p) {}
      }
      ghost var reached := files;
      forall p | p !in rendered && p != reloadPath ensures SameFile(reached, old(files), p) {
        assert SameFile(written, old(files), p) && SameFile(reached, written, p);
      }
      if !ok {
        Restore(previous);
        forall p | p !in rendered && p != reloadPath ensures SameFile(files, old(files), p) {
          assert SameFile(files, reached, p) && SameFile(reached, old(files), p);
        }
      }
    }

    // Write the whole configuration. `faults` gives the outcome of each step: the file writes in
    // whatever order they come, then the validation, then the reload request.
    method Write(config: Configuration, faults: nat -> Fault) returns (reply: Result<(), WriteError>)
      requires Valid()
      modifies this
      ensures forall p :: p !in Managed() && p != reloadPath ==> SameFile(files, old(files), p)
      ensures match reply
              case Ok(_) => forall p :: p in Managed() ==> p in files && Printed(config, p, files[p])
              case Err(_) => forall p :: p in Managed() ==> SameFile(files, old(files), p)
      ensures reply.Ok? <==> forall k :: 0 <= k < |Managed()| + 2 ==> faults(k).Fine?
    {
      var rendered := Render(config);
      var ok, steps := WriteRendered(rendered, faults);
      reply := if ok then Ok(()) else Err(StepFailed(steps));
    }

    // Replace the main file; when the validation or the reload request fails, put back its text.
    method ReplaceMain(current: string, rendered: string, writing: Fault, validating: Fault, reloading: Fault) returns (ok: bool)
      requires Valid() && mainPath in files
      modifies this
      ensures forall p :: p != mainPath && p != reloadPath ==> SameFile(files, old(files), p)
      ensures ok <==> writing.Fine? && validating.Fine? && reloading.Fine?
      ensures mainPath in files
      ensures files[mainPath] == if writing.Untouched? then old(files)[mainPath]
                                 else if ok || writing.Replaced? then rendered else current
    {
      ok := AtomicWrite(mainPath, rendered, writing);
      if !ok { return; }
      ghost var written := files;
      ok := ValidateAndReload(validating, reloading);
      assert SameFile(files, written, mainPath);
      ghost var reached := files;
      if !ok { files := files[mainPath := current]; }
      forall p | p != mainPath && p != reloadPath ensures SameFile(files, old(files), p) {
        assert SameFile(reached, written, p);
      }
    }

    // Rewrite a main file printed by an older agent; what it prints needs no further upgrade. The
    // source guards only the steps behind the replacement, and what it puts back is the text it read,
    // with plain newlines: a failed upgrade leaves the main file as it was exactly when the file was
    // not outdated, or was not replaced, or was put back and held no carriage return.
    method UpgradeMain(writing: Fault, validating: Fault, reloading: Fault) returns (reply: Result<bool, WriteError>)
      requires Valid() && OneLine(node)
      modifies this
      ensures forall p :: p != mainPath && p != reloadPath ==> SameFile(files, old(files), p)
      ensures reply == Ok(false) ==> files == old(files)
      ensures mainPath !in old(files) || !NeedsUpgrade(old(files)[mainPath], node) ==>
                files == old(files) && (reply == Ok(false) || (reply.Err? && reply.error.Unreadable?))
      ensures reply == Ok(true) ==>
                && mainPath in old(files) && NeedsUpgrade(old(files)[mainPath], node)
                && mainPath in files && !NeedsUpgrade(files[mainPath], node)
                && ReadSettings(files[mainPath]) == ReadSettings(old(files)[mainPath])
      ensures mainPath in old(files) && NeedsUpgrade(old(files)[mainPath], node) ==>
                && (reply == Ok(true) <==> writing.Fine? && validating.Fine? && reloading.Fine?)
                && reply != Ok(false)
      ensures reply.Err? ==>
                (SameFile(files, old(files), mainPath) <==>
                   || mainPath !in old(files) || !NeedsUpgrade(old(files)[mainPath], node)
                   || writing.Untouched? || (writing.Fine? && '\r' !in old(files)[mainPath]))
    {
      if mainPath !in files { return Ok(false); }
      ghost var raw := files[mainPath];
      var current := ReadText(files[mainPath]);
      var settings := ReadSettings(files[mainPath]);
      if settings.Err? { return Err(Unreadable(settings.error)); }
      var rendered := RenderMain(settings.value, node);
      if current == rendered { return Ok(false); }
      UpgradeIsIdempotent(raw, node);
      PrintedAsRead(raw, node);
      ReadTextKeeps(raw);
      var ok := ReplaceMain(current, rendered, writing, validating, reloading);
      return if ok then Ok(true) else Err(StepFailed(0));
    }
  }

  // What an upgrade prints holds no carriage return.
  lemma PrintedAsRead(contents: string, node: string)
    requires ReadSettings(contents).Ok? && OneLine(node)
    ensures var printed := RenderMain(ReadSettings(contents).value, node); ReadText(printed) == printed
  {
    ReadSettingsAreValid(contents);
    PrintedLinesAreText(ReadSettings(contents).value, node);
  }

  lemma PrintedLinesAreText(s: Settings, node: string)
    requires Valid(s) && OneLine(s.iface) && OneLine(node)
    ensures ReadText(RenderMain(s, node)) == RenderMain(s, node)
  {
    MainLinesAreLines(s, node);
    JoinIsUnlines(MainLines(s, node));
    NoReturns(MainLines(s, node));
    ReadTextKeeps(RenderMain(s, node));
  }

  lemma {:induction false} NoReturns(lines: seq<string>)
    requires forall l :: l in lines ==> OneLine(l)
    ensures '\r' !in Unlines(lines)
  {
    if lines != [] {
      NoReturns(lines[1..]);
      assert lines[0] in lines && '\r' !in lines[0];
    }
  }

  // An outdated main file: one printed for another node.
  lemma OtherNodeIsOutdated(s: Settings, before: string, node: string)
    requires Valid(s) && OneLine(s.iface) && Trimmed(s.iface) && Dense(before) && Dense(node)
    ensures NeedsUpgrade(RenderMain(s, before), node) <==> before != node
  {
    DenseIsTidy(before);
    SettingsRoundTrip(s, before);
    PrintedLinesAreText(s, before);
    if before != node { NodesTellFilesApart(s, node, before); }
  }

  // Line ends do not make a file outdated, and settings are read from it all the same.
  lemma LineEndsDoNotMatter(contents: string, node: string)
    ensures ReadSettings(ReadText(contents)) == ReadSettings(contents)
    ensures NeedsUpgrade(ReadText(contents), node) <==> NeedsUpgrade(contents, node)
  {
    LinesAsRead(contents);
    ReadTextKeeps(ReadText(contents));
  }

  // A main file with carriage returns whose upgrade, when it fails behind the replacement, leaves
  // another file than it found.
  lemma ReturnsAreNotPutBack(s: Settings, before: string, node: string) returns (contents: string)
    requires Valid(s) && OneLine(s.iface) && Trimmed(s.iface) && Dense(before) && Dense(node) && before != node
    ensures NeedsUpgrade(contents, node) && '\r' in contents && ReadText(contents) == RenderMain(s, before)
  {
    DenseIsTidy(before);
    OtherNodeIsOutdated(s, before, node);
    PrintedEndsInNewline(s, before);
    PrintedLinesAreText(s, before);
    contents := EndInReturn(RenderMain(s, before));
    LineEndsDoNotMatter(contents, node);
  }

  lemma EndInReturn(text: string) returns (contents: string)
    requires text != "" && text[|text| - 1] == '\n' && ReadText(text) == text
    ensures ReadText(contents) == text && '\r' in contents
  {
    var body := text[..|text| - 1];
    ReadTextKeeps(text);
    contents := body + "\r\n";
    ReadTextAfter(body, "\r\n");
    assert text == body + "\n" && contents[|body|] == '\r';
  }

  lemma PrintedEndsInNewline(s: Settings, node: string)
    ensures RenderMain(s, node) != "" && RenderMain(s, node)[|RenderMain(s, node)| - 1] == '\n'
  {
    JoinIsUnlines(MainLines(s, node));
    UnlinesEnds(MainLines(s, node));
  }

  lemma {:induction false} UnlinesEnds(lines: seq<string>)
    ensures lines != [] ==> Unlines(lines) != "" && Unlines(lines)[|Unlines(lines)| - 1] == '\n'
  {
    if lines != [] { UnlinesEnds(lines[1..]); }
  }

  // After a successful write the files read back as the configuration written: its settings, and
  // category by category its reservations in address order with descriptions emptied.
  lemma WrittenConfigurationReadsBack(config: Configuration, node: string, c: Category, main: string, category: string)
    requires Valid(config.settings) && OneLine(config.settings.iface) && OneLine(node)
    requires forall r :: r in config.reservations ==> ValidReservation(r)
    requires main == RenderMain(config.settings, node)
    requires category == RenderReservations(c, OfCategory(config.reservations, c))
    ensures ReadSettings(main) == AsRead(config.settings)
    ensures ReadSettings(main) == Ok(config.settings) <==> Trimmed(config.settings.iface)
    ensures ReadHosts(SplitLines(category), c) == Ok(Plain(ByAddress(OfCategory(config.reservations, c)), c))
  {
    SettingsRoundTrip(config.settings, node);
    OfCategoryIsPart(config.reservations, c);
    ReservationsRoundTrip(c, OfCategory(config.reservations, c));
  }

  lemma {:induction false} OfCategoryIsPart(rs: seq<Reservation>, c: Category)
    ensures forall r :: r in OfCategory(rs, c) <==> r in rs && r.category == c
  {
    if rs != [] {
      OfCategoryIsPart(rs[1..], c);
      assert forall r :: r in rs <==> r == rs[0] || r in rs[1..];
    }
  }
}
