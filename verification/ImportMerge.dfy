/** Merging duplicate imports, from lines that have been classified and their names split. */
module ImportMerge {
  import opened Sequences
  import opened Wrappers

  datatype Line =
    | TypeImport(names: seq<string>, mod: string)
    | ValueImport(names: seq<string>, mod: string)      // may hold inline `type X` names
    | Other(text: string)

  datatype Names = Names(types: seq<string>, values: seq<string>)

  const PLACEHOLDER := "__IMPORT_PLACEHOLDER__"
  const TYPE_PREFIX := "type "

  predicate IsPlaceholder(slot: string) {
    PLACEHOLDER <= slot
  }

  // ---------- the merge ----------

  // The distinct elements, each at its first place.
  function Dedup<T(==)>(xs: seq<T>): seq<T> {
    if xs == [] then []
    else
      var n := |xs| - 1;
      if xs[n] in xs[..n] then Dedup(xs[..n]) else Dedup(xs[..n]) + [xs[n]]
  }

  function Inlined(types: seq<string>): seq<string> {
    seq(|types|, i requires 0 <= i < |types| => TYPE_PREFIX + types[i])
  }

  // The one import line of a module.
  function LineFor(mod: string, names: Names): Line {
    var types, values := Dedup(names.types), Dedup(names.values);
    if values != [] && types != [] then ValueImport(values + Inlined(types), mod)
    else if values != [] then ValueImport(values, mod)
    else TypeImport(types, mod)
  }

  type Imports = map<string, Names>

  function NamesOf(imports: Imports, mod: string): Names {
    if mod in imports then imports[mod] else Names([], [])
  }

  function Collect(imports: Imports, line: Line): Imports {
    match line
    case Other(_) => imports
    case TypeImport(names, mod) =>
      var was := NamesOf(imports, mod); imports[mod := was.(types := was.types + names)]
    case ValueImport(names, mod) =>
      var was := NamesOf(imports, mod); imports[mod := was.(values := was.values + names)]
  }

  function Collected(lines: seq<Line>): Imports {
    if lines == [] then map[] else Collect(Collected(lines[..|lines| - 1]), lines[|lines| - 1])
  }

  predicate Imported(lines: seq<Line>, mod: string) {
    exists i :: 0 <= i < |lines| && !lines[i].Other? && lines[i].mod == mod
  }

  // The other lines, with a placeholder where a module is first imported.
  function Slots(lines: seq<Line>): seq<string> {
    if lines == [] then []
    else
      var before, line := lines[..|lines| - 1], lines[|lines| - 1];
      if line.Other? then Slots(before) + [line.text]
      else if Imported(before, line.mod) then Slots(before)
      else Slots(before) + [PLACEHOLDER + line.mod]
  }

  // None: the placeholder names no module, and the look-up fails.
  function Fill(slot: string, imports: Imports): Option<Line> {
    if !IsPlaceholder(slot) then Some(Other(slot))
    else
      var mod := slot[|PLACEHOLDER|..];
      if mod in imports then Some(LineFor(mod, imports[mod])) else None
  }

  function Rebuild(slots: seq<string>, imports: Imports): Option<seq<Line>> {
    if slots == [] then Some([])
    else
      var before, last := Rebuild(slots[..|slots| - 1], imports), Fill(slots[|slots| - 1], imports);
      if before.None? || last.None? then None else Some(before.value + [last.value])
  }

  function Merge(lines: seq<Line>): Option<seq<Line>> {
    Rebuild(Slots(lines), Collected(lines))
  }

  lemma SlotsSnoc(lines: seq<Line>, line: Line)
    ensures Slots(lines + [line]) ==
            if line.Other? then Slots(lines) + [line.text]
            else if Imported(lines, line.mod) then Slots(lines) else Slots(lines) + [PLACEHOLDER + line.mod]
    ensures Collected(lines + [line]) == Collect(Collected(lines), line)
    ensures forall m :: Imported(lines + [line], m) <==> Imported(lines, m) || (!line.Other? && line.mod == m)
  {
    assert (lines + [line])[..|lines|] == lines;
    forall m ensures Imported(lines + [line], m) <==> Imported(lines, m) || (!line.Other? && line.mod == m) {
      if Imported(lines, m) {
        var i :| 0 <= i < |lines| && !lines[i].Other? && lines[i].mod == m;
        assert (lines + [line])[i] == lines[i];
      }
      if !line.Other? && line.mod == m {
        assert (lines + [line])[|lines|] == line;
      }
    }
  }

  // One import line: its names go to its module, and the module gets a placeholder the first time.
  method AddImport(imports: Imports, slots: seq<string>, seen: set<string>, line: Line)
      returns (imports': Imports, slots': seq<string>, seen': set<string>)
    requires !line.Other?
    ensures imports' == Collect(imports, line) && seen' == seen + {line.mod}
    ensures slots' == if line.mod in seen then slots else slots + [PLACEHOLDER + line.mod]
  {
    imports', slots', seen' := imports, slots, seen;
    var mod := line.mod;
    if mod !in imports' {
      imports' := imports'[mod := Names([], [])];
    }
    var entry := imports'[mod];
    entry := if line.TypeImport? then entry.(types := entry.types + line.names)
             else entry.(values := entry.values + line.names);
    imports' := imports'[mod := entry];
    if mod !in seen {
      seen' := seen' + {mod};
      slots' := slots' + [PLACEHOLDER + mod];
    }
  }

  method MergeDuplicateImports(lines: seq<Line>) returns (result: Option<seq<Line>>)
    ensures result == Merge(lines)
  {
    var importsByModule: Imports := map[];
    var otherLines: seq<string> := [];
    var seenModules: set<string> := {};
    for i := 0 to |lines|
      invariant importsByModule == Collected(lines[..i]) && otherLines == Slots(lines[..i])
      invariant forall m :: m in seenModules <==> Imported(lines[..i], m)
    {
      assert lines[..i + 1] == lines[..i] + [lines[i]];
      SlotsSnoc(lines[..i], lines[i]);
      if lines[i].Other? {
        otherLines := otherLines + [lines[i].text];
      } else {
        importsByModule, otherLines, seenModules := AddImport(importsByModule, otherLines, seenModules, lines[i]);
      }
    }
    assert lines[..|lines|] == lines;
    result := Rebuild(otherLines, importsByModule);
  }

  // ---------- what the merge keeps ----------

  // No other line can be taken for a placeholder.
  predicate Clean(lines: seq<Line>) {
    forall i :: 0 <= i < |lines| && lines[i].Other? ==> !IsPlaceholder(lines[i].text)
  }

  // A line without the names of an import.
  datatype Mark = Text(text: string) | Import(mod: string)

  function MarkOf(line: Line): Mark {
    if line.Other? then Text(line.text) else Import(line.mod)
  }

  function Marks(lines: seq<Line>): seq<Mark> {
    seq(|lines|, i requires 0 <= i < |lines| => MarkOf(lines[i]))
  }

  // The marks with every import but the first of its module left out.
  function FirstImports(marks: seq<Mark>): seq<Mark> {
    if marks == [] then []
    else
      var before, last := marks[..|marks| - 1], marks[|marks| - 1];
      if last.Import? && last in before then FirstImports(before) else FirstImports(before) + [last]
  }

  // The lines with each module's import, as `imports` has it, at the place of its first import.
  function Built(lines: seq<Line>, imports: Imports): seq<Line> {
    if lines == [] then []
    else
      var before, line := lines[..|lines| - 1], lines[|lines| - 1];
      if line.Other? then Built(before, imports) + [line]
      else if Imported(before, line.mod) then Built(before, imports)
      else Built(before, imports) + [LineFor(line.mod, NamesOf(imports, line.mod))]
  }

  lemma RebuildSnoc(slots: seq<string>, slot: string, imports: Imports)
    ensures Rebuild(slots + [slot], imports) ==
            var before, last := Rebuild(slots, imports), Fill(slot, imports);
            if before.None? || last.None? then None else Some(before.value + [last.value])
  {
    assert (slots + [slot])[..|slots|] == slots;
  }

  lemma {:induction false} RebuiltIsBuilt(lines: seq<Line>, imports: Imports)
    requires Clean(lines) && forall m :: Imported(lines, m) ==> m in imports
    ensures Rebuild(Slots(lines), imports) == Some(Built(lines, imports))
  {
    if lines != [] {
      var n := |lines| - 1;
      var before, line := lines[..n], lines[n];
      assert lines == before + [line];
      SlotsSnoc(before, line);
      assert Clean(before) by { assert forall i :: 0 <= i < n ==> before[i] == lines[i]; }
      RebuiltIsBuilt(before, imports);
      if line.Other? {
        RebuildSnoc(Slots(before), line.text, imports);
      } else {
        RebuildSnoc(Slots(before), PLACEHOLDER + line.mod, imports);
        assert (PLACEHOLDER + line.mod)[|PLACEHOLDER|..] == line.mod;
      }
    }
  }

  lemma {:induction false} CollectedModules(lines: seq<Line>)
    ensures forall m :: m in Collected(lines) <==> Imported(lines, m)
  {
    if lines != [] {
      var n := |lines| - 1;
      CollectedModules(lines[..n]);
      assert lines == lines[..n] + [lines[n]];
      SlotsSnoc(lines[..n], lines[n]);
    }
  }

  lemma MergeIsBuilt(lines: seq<Line>)
    requires Clean(lines)
    ensures Merge(lines) == Some(Built(lines, Collected(lines)))
  {
    CollectedModules(lines);
    RebuiltIsBuilt(lines, Collected(lines));
  }

  // ---------- places and other lines ----------

  lemma MarkedIffImported(lines: seq<Line>, mod: string)
    ensures Import(mod) in Marks(lines) <==> Imported(lines, mod)
  {
    if Import(mod) in Marks(lines) {
      var i :| 0 <= i < |lines| && Marks(lines)[i] == Import(mod);
      assert !lines[i].Other? && lines[i].mod == mod;
    }
    if Imported(lines, mod) {
      var i :| 0 <= i < |lines| && !lines[i].Other? && lines[i].mod == mod;
      assert Marks(lines)[i] == Import(mod);
    }
  }

  lemma MarksSnoc(lines: seq<Line>, line: Line)
    ensures Marks(lines + [line]) == Marks(lines) + [MarkOf(line)]
    ensures FirstImports(Marks(lines + [line])) ==
            if !line.Other? && Imported(lines, line.mod) then FirstImports(Marks(lines))
            else FirstImports(Marks(lines)) + [MarkOf(line)]
  {
    assert Marks(lines + [line]) == Marks(lines) + [MarkOf(line)];
    assert (Marks(lines) + [MarkOf(line)])[..|lines|] == Marks(lines);
    if !line.Other? {
      MarkedIffImported(lines, line.mod);
    }
  }

  lemma {:induction false} BuiltMarks(lines: seq<Line>, imports: Imports)
    ensures Marks(Built(lines, imports)) == FirstImports(Marks(lines))
  {
    if lines != [] {
      var n := |lines| - 1;
      var before, line := lines[..n], lines[n];
      assert lines == before + [line];
      BuiltMarks(before, imports);
      MarksSnoc(before, line);
      var added := if line.Other? then line else LineFor(line.mod, NamesOf(imports, line.mod));
      assert Marks(Built(before, imports) + [added]) == Marks(Built(before, imports)) + [MarkOf(added)];
    }
  }

  // All other lines stay, in order, and each module is left with one import line, where it first had one.
  lemma MergeKeepsPlaces(lines: seq<Line>)
    requires Clean(lines)
    ensures Merge(lines).Some? && Marks(Merge(lines).value) == FirstImports(Marks(lines))
  {
    MergeIsBuilt(lines);
    BuiltMarks(lines, Collected(lines));
  }

  function Texts(lines: seq<Line>): seq<string> {
    if lines == [] then []
    else
      var n := |lines| - 1;
      if lines[n].Other? then Texts(lines[..n]) + [lines[n].text] else Texts(lines[..n])
  }

  function RealTexts(slots: seq<string>): seq<string> {
    if slots == [] then []
    else
      var n := |slots| - 1;
      if IsPlaceholder(slots[n]) then RealTexts(slots[..n]) else RealTexts(slots[..n]) + [slots[n]]
  }

  lemma RealTextsSnoc(slots: seq<string>, slot: string)
    ensures RealTexts(slots + [slot]) == if IsPlaceholder(slot) then RealTexts(slots) else RealTexts(slots) + [slot]
  {
    assert (slots + [slot])[..|slots|] == slots;
  }

  lemma {:induction false} RebuiltTexts(slots: seq<string>, imports: Imports)
    requires Rebuild(slots, imports).Some?
    ensures Texts(Rebuild(slots, imports).value) == RealTexts(slots)
  {
    if slots != [] {
      var n := |slots| - 1;
      RebuiltTexts(slots[..n], imports);
      var r := Rebuild(slots[..n], imports).value;
      var last := Fill(slots[n], imports).value;
      assert (r + [last])[..|r|] == r;
    }
  }

  lemma {:induction false} SlotTexts(lines: seq<Line>)
    ensures RealTexts(Slots(lines)) == RealTexts(Texts(lines))
  {
    if lines != [] {
      var n := |lines| - 1;
      var before, line := lines[..n], lines[n];
      assert lines == before + [line];
      SlotTexts(before);
      SlotsSnoc(before, line);
      if line.Other? {
        RealTextsSnoc(Slots(before), line.text);
        RealTextsSnoc(Texts(before), line.text);
      } else {
        RealTextsSnoc(Slots(before), PLACEHOLDER + line.mod);
      }
    }
  }

  lemma {:induction false} AllReal(texts: seq<string>)
    ensures |RealTexts(texts)| <= |texts|
    ensures RealTexts(texts) == texts <==> NoPlaceholder(texts)
  {
    if texts != [] {
      var n := |texts| - 1;
      AllReal(texts[..n]);
      assert texts == texts[..n] + [texts[n]];
      assert forall x :: x in texts <==> x in texts[..n] || x == texts[n];
      if !IsPlaceholder(texts[n]) {
        assert RealTexts(texts) == texts <==> RealTexts(texts[..n]) == texts[..n] by {
          if RealTexts(texts) == texts {
            assert (RealTexts(texts[..n]) + [texts[n]])[..|RealTexts(texts)| - 1] == RealTexts(texts[..n]);
          }
        }
      }
    }
  }

  ghost predicate NoPlaceholder(texts: seq<string>) {
    forall x :: x in texts ==> !IsPlaceholder(x)
  }

  lemma {:induction false} CleanTexts(lines: seq<Line>)
    ensures Clean(lines) <==> NoPlaceholder(Texts(lines))
  {
    if lines != [] {
      var n := |lines| - 1;
      CleanTexts(lines[..n]);
      assert Clean(lines) <==> Clean(lines[..n]) && (lines[n].Other? ==> !IsPlaceholder(lines[n].text)) by {
        assert forall i :: 0 <= i < n ==> lines[..n][i] == lines[i];
      }
      if lines[n].Other? {
        assert forall x :: x in Texts(lines) <==> x in Texts(lines[..n]) || x == lines[n].text;
      }
    }
  }

  // The merge gives back all the other lines if and only if none of them starts like a placeholder.
  lemma OtherLinesKeptIffClean(lines: seq<Line>)
    ensures Merge(lines).Some? && Texts(Merge(lines).value) == Texts(lines) <==> Clean(lines)
  {
    CleanTexts(lines);
    AllReal(Texts(lines));
    SlotTexts(lines);
    if Merge(lines).Some? {
      RebuiltTexts(Slots(lines), Collected(lines));
    }
    if Clean(lines) {
      MergeIsBuilt(lines);
    }
  }

  // A line that is a placeholder for a module nobody imports makes the merge fail.
  lemma PlaceholderLineFails()
    ensures Merge([Other(PLACEHOLDER + "m")]) == None
  {
    var line := Other(PLACEHOLDER + "m");
    SlotsSnoc([], line);
    assert [] + [line] == [line] && [] + [line.text] == [line.text];
    assert line.text[|PLACEHOLDER|..] == "m";
    RebuildSnoc([], line.text, map[]);
  }

  // ---------- names ----------

  predicate IsInline(name: string) {
    TYPE_PREFIX <= name
  }

  function LineTypes(line: Line, mod: string): set<string> {
    match line
    case Other(_) => {}
    case TypeImport(names, m) => if m == mod then set n | n in names else {}
    case ValueImport(names, m) => if m == mod then set n | n in names && IsInline(n) :: n[|TYPE_PREFIX|..] else {}
  }

  function LineValues(line: Line, mod: string): set<string> {
    if line.ValueImport? && line.mod == mod then set n | n in line.names && !IsInline(n) else {}
  }

  // The names a module is imported for as types, and as values.
  function TypeNames(lines: seq<Line>, mod: string): set<string> {
    if lines == [] then {} else TypeNames(lines[..|lines| - 1], mod) + LineTypes(lines[|lines| - 1], mod)
  }

  function ValueNames(lines: seq<Line>, mod: string): set<string> {
    if lines == [] then {} else ValueNames(lines[..|lines| - 1], mod) + LineValues(lines[|lines| - 1], mod)
  }

  // What an entry of the import table stands for.
  function EntryTypes(names: Names): set<string> {
    (set n | n in names.types) + (set n | n in names.values && IsInline(n) :: n[|TYPE_PREFIX|..])
  }

  function EntryValues(names: Names): set<string> {
    set n | n in names.values && !IsInline(n)
  }

  lemma {:induction false} DedupProperties<T(!new)>(xs: seq<T>)
    ensures forall x :: x in Dedup(xs) <==> x in xs
    ensures Dedup(xs) == [] <==> xs == []
    ensures Distinct(Dedup(xs))
    ensures Distinct(xs) ==> Dedup(xs) == xs
  {
    if xs != [] {
      var n := |xs| - 1;
      DedupProperties(xs[..n]);
      assert xs == xs[..n] + [xs[n]];
      if Distinct(xs) {
        assert xs[n] !in xs[..n];
      }
    }
  }

  lemma InlinedNames(values: seq<string>, types: seq<string>)
    ensures forall x :: x in values + Inlined(types) <==> x in values || (IsInline(x) && x[|TYPE_PREFIX|..] in types)
  {
    var all := values + Inlined(types);
    forall x ensures x in all <==> x in values || (IsInline(x) && x[|TYPE_PREFIX|..] in types) {
      if x in Inlined(types) {
        var i :| 0 <= i < |types| && Inlined(types)[i] == x;
        assert x[|TYPE_PREFIX|..] == types[i];
      }
      if IsInline(x) && x[|TYPE_PREFIX|..] in types {
        var i :| 0 <= i < |types| && types[i] == x[|TYPE_PREFIX|..];
        assert x == TYPE_PREFIX + types[i];
        assert Inlined(types)[i] == x && x in Inlined(types);
      }
    }
  }

  // What a value import with inlined types says.
  lemma MixedNames(mod: string, values: seq<string>, types: seq<string>)
    ensures var line := ValueImport(values + Inlined(types), mod);
            && LineTypes(line, mod) == EntryTypes(Names(types, values))
            && LineValues(line, mod) == EntryValues(Names(types, values))
  {
    var line := ValueImport(values + Inlined(types), mod);
    InlinedNames(values, types);
    forall t ensures t in LineTypes(line, mod) <==> t in EntryTypes(Names(types, values)) {
      if t in types {
        var x := TYPE_PREFIX + t;
        assert IsInline(x) && x[|TYPE_PREFIX|..] == t && x in line.names;
      }
    }
    forall v ensures v in LineValues(line, mod) <==> v in EntryValues(Names(types, values)) {}
  }

  lemma SameEntry(a: Names, b: Names)
    requires (forall x :: x in a.types <==> x in b.types) && (forall x :: x in a.values <==> x in b.values)
    ensures EntryTypes(a) == EntryTypes(b) && EntryValues(a) == EntryValues(b)
  {
  }

  lemma LineForNames(mod: string, names: Names)
    ensures LineTypes(LineFor(mod, names), mod) == EntryTypes(names)
    ensures LineValues(LineFor(mod, names), mod) == EntryValues(names)
  {
    var types, values := Dedup(names.types), Dedup(names.values);
    DedupProperties(names.types);
    DedupProperties(names.values);
    SameEntry(Names(types, values), names);
    MixedNames(mod, values, types);
    if types == [] {
      assert values + Inlined(types) == values;
    } else if values == [] {
      assert LineTypes(TypeImport(types, mod), mod) == EntryTypes(Names(types, []));
    }
  }

  lemma {:induction false} CollectedNames(lines: seq<Line>, mod: string)
    ensures var names := NamesOf(Collected(lines), mod);
            EntryTypes(names) == TypeNames(lines, mod) && EntryValues(names) == ValueNames(lines, mod)
  {
    if lines != [] {
      var n := |lines| - 1;
      CollectedNames(lines[..n], mod);
      var a, b := NamesOf(Collected(lines[..n]), mod), NamesOf(Collected(lines), mod);
      assert forall x :: x in b.types <==>
                         x in a.types || (lines[n].TypeImport? && lines[n].mod == mod && x in lines[n].names);
      assert forall x :: x in b.values <==>
                         x in a.values || (lines[n].ValueImport? && lines[n].mod == mod && x in lines[n].names);
    }
  }

  lemma NamesSnoc(lines: seq<Line>, line: Line, mod: string)
    ensures TypeNames(lines + [line], mod) == TypeNames(lines, mod) + LineTypes(line, mod)
    ensures ValueNames(lines + [line], mod) == ValueNames(lines, mod) + LineValues(line, mod)
  {
    assert (lines + [line])[..|lines|] == lines;
  }

  lemma {:induction false} BuiltNames(lines: seq<Line>, imports: Imports, mod: string)
    ensures TypeNames(Built(lines, imports), mod) ==
            if Imported(lines, mod) then EntryTypes(NamesOf(imports, mod)) else {}
    ensures ValueNames(Built(lines, imports), mod) ==
            if Imported(lines, mod) then EntryValues(NamesOf(imports, mod)) else {}
  {
    if lines != [] {
      var n := |lines| - 1;
      var before, line := lines[..n], lines[n];
      assert lines == before + [line];
      SlotsSnoc(before, line);
      BuiltNames(before, imports, mod);
      BuiltStep(before, line, imports, mod);
    }
  }

  lemma BuiltStep(before: seq<Line>, line: Line, imports: Imports, mod: string)
    ensures var built, after := Built(before, imports), Built(before + [line], imports);
            var isFirst := !line.Other? && line.mod == mod && !Imported(before, mod);
            && TypeNames(after, mod) == TypeNames(built, mod) +
                (if isFirst then EntryTypes(NamesOf(imports, mod)) else {})
            && ValueNames(after, mod) == ValueNames(built, mod) +
                (if isFirst then EntryValues(NamesOf(imports, mod)) else {})
  {
    assert (before + [line])[..|before|] == before;
    var built := Built(before, imports);
    if line.Other? {
      NamesSnoc(built, line, mod);
    } else if !Imported(before, line.mod) {
      NamesSnoc(built, LineFor(line.mod, NamesOf(imports, line.mod)), mod);
      LineForNames(line.mod, NamesOf(imports, line.mod));
    }
  }

  lemma {:induction false} NotImportedNoNames(lines: seq<Line>, mod: string)
    requires !Imported(lines, mod)
    ensures TypeNames(lines, mod) == {} && ValueNames(lines, mod) == {}
  {
    if lines != [] {
      var n := |lines| - 1;
      assert lines == lines[..n] + [lines[n]];
      SlotsSnoc(lines[..n], lines[n]);
      NotImportedNoNames(lines[..n], mod);
    }
  }

  // Every module keeps exactly the names it was imported for as types, and as values.
  lemma MergeKeepsNames(lines: seq<Line>, mod: string)
    requires Clean(lines)
    ensures Merge(lines).Some?
    ensures TypeNames(Merge(lines).value, mod) == TypeNames(lines, mod)
    ensures ValueNames(Merge(lines).value, mod) == ValueNames(lines, mod)
  {
    MergeIsBuilt(lines);
    BuiltNames(lines, Collected(lines), mod);
    CollectedNames(lines, mod);
    if !Imported(lines, mod) {
      NotImportedNoNames(lines, mod);
    }
  }

  // ---------- merging twice ----------

  // No module is imported both for the value-import name `type t` and for the type t.
  ghost predicate NoInlineClash(lines: seq<Line>) {
    forall i, j, t :: ClashAt(lines, i, j, t) ==> false
  }

  predicate ClashAt(lines: seq<Line>, i: int, j: int, t: string) {
    && 0 <= i < |lines| && 0 <= j < |lines|
    && lines[i].TypeImport? && lines[j].ValueImport? && lines[i].mod == lines[j].mod
    && t in lines[i].names && TYPE_PREFIX + t in lines[j].names
  }

  // The names a module's entry holds are those of its lines.
  lemma {:induction false} CollectedMembers(lines: seq<Line>, mod: string, x: string)
    ensures x in NamesOf(Collected(lines), mod).types <==>
            exists i :: 0 <= i < |lines| && lines[i].TypeImport? && lines[i].mod == mod && x in lines[i].names
    ensures x in NamesOf(Collected(lines), mod).values <==>
            exists i :: 0 <= i < |lines| && lines[i].ValueImport? && lines[i].mod == mod && x in lines[i].names
  {
    if lines != [] {
      var n := |lines| - 1;
      CollectedMembers(lines[..n], mod, x);
      assert forall i :: 0 <= i < n ==> lines[..n][i] == lines[i];
      var a, b := NamesOf(Collected(lines[..n]), mod), NamesOf(Collected(lines), mod);
      assert x in b.types <==> x in a.types || (lines[n].TypeImport? && lines[n].mod == mod && x in lines[n].names);
      assert x in b.values <==> x in a.values || (lines[n].ValueImport? && lines[n].mod == mod && x in lines[n].names);
    }
  }

  ghost predicate OneImportEach(lines: seq<Line>) {
    forall i, j :: 0 <= i < j < |lines| && !lines[i].Other? && !lines[j].Other? ==> lines[i].mod != lines[j].mod
  }

  // The entry a single import line makes.
  function Solo(line: Line): Names
    requires !line.Other?
  {
    if line.TypeImport? then Names(line.names, []) else Names([], line.names)
  }

  lemma {:induction false} NothingCollected(lines: seq<Line>, mod: string)
    requires !Imported(lines, mod)
    ensures NamesOf(Collected(lines), mod) == Names([], [])
  {
    CollectedModules(lines);
  }

  lemma {:induction false} CollectedSolo(lines: seq<Line>, k: nat)
    requires OneImportEach(lines) && k < |lines| && !lines[k].Other?
    ensures NamesOf(Collected(lines), lines[k].mod) == Solo(lines[k])
  {
    var n := |lines| - 1;
    var before, line := lines[..n], lines[n];
    assert forall i :: 0 <= i < n ==> before[i] == lines[i];
    if k == n {
      assert !Imported(before, line.mod);
      NothingCollected(before, line.mod);
      assert [] + line.names == line.names;
    } else {
      CollectedSolo(before, k);
      assert line.Other? || line.mod != lines[k].mod;
    }
  }

  function Rewritten(line: Line, imports: Imports): Line {
    if line.Other? then line else LineFor(line.mod, NamesOf(imports, line.mod))
  }

  // Merging lines with one import per module only rewrites each import.
  lemma {:induction false} BuiltInPlace(lines: seq<Line>, imports: Imports)
    requires OneImportEach(lines)
    ensures |Built(lines, imports)| == |lines|
    ensures forall k :: 0 <= k < |lines| ==> Built(lines, imports)[k] == Rewritten(lines[k], imports)
  {
    if lines != [] {
      var n := |lines| - 1;
      assert forall i :: 0 <= i < n ==> lines[..n][i] == lines[i];
      BuiltInPlace(lines[..n], imports);
      assert !lines[n].Other? ==> !Imported(lines[..n], lines[n].mod);
    }
  }

  // A built line is rebuilt as itself exactly when its names are distinct.
  lemma SoloRebuilt(line: Line)
    requires !line.Other? && (line.ValueImport? ==> line.names != [])
    ensures LineFor(line.mod, Solo(line)) == line <==> Distinct(line.names)
  {
    DedupProperties(line.names);
    DedupProperties<string>([]);
  }

  lemma LineForDistinct(mod: string, names: Names)
    ensures var line := LineFor(mod, names);
            && !line.Other? && (line.ValueImport? ==> line.names != [])
            && (Distinct(line.names) <==> forall t :: t in names.types ==> TYPE_PREFIX + t !in names.values)
  {
    var types, values := Dedup(names.types), Dedup(names.values);
    DedupProperties(names.types);
    DedupProperties(names.values);
    MixedDistinct(values, types);
  }

  lemma MixedDistinct(values: seq<string>, types: seq<string>)
    requires Distinct(values) && Distinct(types)
    ensures Distinct(values + Inlined(types)) <==> forall t :: t in types ==> TYPE_PREFIX + t !in values
  {
    var all := values + Inlined(types);
    if t :| t in types && TYPE_PREFIX + t in values {
      var i :| 0 <= i < |types| && types[i] == t;
      var j :| 0 <= j < |values| && values[j] == TYPE_PREFIX + t;
      assert all[j] == all[|values| + i];
    } else {
      forall i, j | 0 <= i < j < |all| ensures all[i] != all[j] {
        if i >= |values| {
          var a, b := types[i - |values|], types[j - |values|];
          assert a != b && (TYPE_PREFIX + a)[|TYPE_PREFIX|..] == a && (TYPE_PREFIX + b)[|TYPE_PREFIX|..] == b;
        } else if j >= |values| {
          assert types[j - |values|] in types && all[i] in values;
        }
      }
    }
  }

  lemma {:induction false} BuiltOnePerModule(lines: seq<Line>, imports: Imports)
    ensures OneImportEach(Built(lines, imports))
    ensures forall k :: 0 <= k < |Built(lines, imports)| && !Built(lines, imports)[k].Other? ==>
              Imported(lines, Built(lines, imports)[k].mod) &&
              Built(lines, imports)[k] ==
              LineFor(Built(lines, imports)[k].mod, NamesOf(imports, Built(lines, imports)[k].mod))
    ensures forall k :: 0 <= k < |Built(lines, imports)| && Built(lines, imports)[k].Other? ==>
              Built(lines, imports)[k] in lines
  {
    if lines != [] {
      var n := |lines| - 1;
      assert lines == lines[..n] + [lines[n]];
      SlotsSnoc(lines[..n], lines[n]);
      BuiltOnePerModule(lines[..n], imports);
    }
  }

  // Merging the result again changes nothing if and only if no module has such a clash; in
  // particular when the input has no inline types.
  lemma IdempotentIffNoClash(lines: seq<Line>)
    requires Clean(lines)
    ensures Merge(lines).Some?
    ensures Merge(Merge(lines).value) == Merge(lines) <==> NoInlineClash(lines)
  {
    MergeIsBuilt(lines);
    var imports := Collected(lines);
    var r := Built(lines, imports);
    BuiltOnePerModule(lines, imports);
    assert Clean(r);
    MergeIsBuilt(r);
    BuiltInPlace(r, Collected(r));
    var r' := Built(r, Collected(r));
    forall k | 0 <= k < |r| && !r[k].Other? ensures r'[k] == r[k] <==> ModuleOk(imports, r[k].mod) {
      CollectedSolo(r, k);
      LineForDistinct(r[k].mod, NamesOf(imports, r[k].mod));
      SoloRebuilt(r[k]);
    }
    ClashFree(lines);
    if NoInlineClash(lines) {
      assert r' == r;
    } else {
      var mod :| Imported(lines, mod) && !ModuleOk(imports, mod);
      var k := BuiltHas(lines, imports, mod);
      assert r'[k] != r[k];
    }
  }

  // Importing both the type t and, inline, `type t` makes a second merge change the first.
  lemma InlineClashChangesTwice()
    ensures var lines := [TypeImport(["t"], "m"), ValueImport(["type t"], "m")];
            Merge(lines).Some? && Merge(Merge(lines).value) != Merge(lines)
  {
    var lines := [TypeImport(["t"], "m"), ValueImport(["type t"], "m")];
    assert TYPE_PREFIX + "t" == "type t";
    assert ClashAt(lines, 0, 1, "t");
    IdempotentIffNoClash(lines);
  }

  ghost predicate ModuleOk(imports: Imports, mod: string) {
    forall t :: t in NamesOf(imports, mod).types ==> TYPE_PREFIX + t !in NamesOf(imports, mod).values
  }

  lemma ClashFree(lines: seq<Line>)
    ensures NoInlineClash(lines) <==> forall mod :: Imported(lines, mod) ==> ModuleOk(Collected(lines), mod)
  {
    if i, j, t :| ClashAt(lines, i, j, t) {
      var mod := lines[i].mod;
      CollectedMembers(lines, mod, t);
      CollectedMembers(lines, mod, TYPE_PREFIX + t);
      assert Imported(lines, mod) && !ModuleOk(Collected(lines), mod);
    }
    forall mod | !ModuleOk(Collected(lines), mod) ensures !NoInlineClash(lines) {
      var t :| t in NamesOf(Collected(lines), mod).types && TYPE_PREFIX + t in NamesOf(Collected(lines), mod).values;
      CollectedMembers(lines, mod, t);
      CollectedMembers(lines, mod, TYPE_PREFIX + t);
      var i :| 0 <= i < |lines| && lines[i].TypeImport? && lines[i].mod == mod && t in lines[i].names;
      var j :| 0 <= j < |lines| && lines[j].ValueImport? && lines[j].mod == mod && TYPE_PREFIX + t in lines[j].names;
      assert ClashAt(lines, i, j, t);
    }
  }

  lemma BuiltHas(lines: seq<Line>, imports: Imports, mod: string) returns (k: nat)
    requires Imported(lines, mod)
    ensures k < |Built(lines, imports)| && !Built(lines, imports)[k].Other? && Built(lines, imports)[k].mod == mod
    decreases |lines|
  {
    var n := |lines| - 1;
    assert lines == lines[..n] + [lines[n]];
    SlotsSnoc(lines[..n], lines[n]);
    if Imported(lines[..n], mod) {
      k := BuiltHas(lines[..n], imports, mod);
    } else {
      k := |Built(lines[..n], imports)|;
    }
  }

  // ---------- the merged import, name by name ----------

  // The names a module is imported with as types, or as values, in the order of the lines.
  function Listed(lines: seq<Line>, mod: string, asTypes: bool): seq<string> {
    if lines == [] then []
    else
      var n := |lines| - 1;
      Listed(lines[..n], mod, asTypes) +
      (if !lines[n].Other? && lines[n].mod == mod && lines[n].TypeImport? == asTypes then lines[n].names else [])
  }

  lemma {:induction false} CollectedListed(lines: seq<Line>, mod: string)
    ensures NamesOf(Collected(lines), mod) == Names(Listed(lines, mod, true), Listed(lines, mod, false))
  {
    if lines != [] {
      var n := |lines| - 1;
      CollectedListed(lines[..n], mod);
      var was := NamesOf(Collected(lines[..n]), mod);
      assert was.types + [] == was.types && was.values + [] == was.values;
    }
  }

  // d has the elements of xs, each once, in the order in which they first occur.
  ghost predicate FirstOccurrences<T(!new)>(d: seq<T>, xs: seq<T>) {
    && (forall x :: x in d <==> x in xs) && Distinct(d)
    && forall i, j :: 0 <= i < j < |d| ==> OccursBefore(xs, d[i], d[j])
  }

  ghost predicate OccursBefore<T>(xs: seq<T>, x: T, y: T) {
    exists p :: 0 <= p < |xs| && xs[p] == x && y !in xs[..p]
  }

  lemma {:induction false} DedupInOrder<T(!new)>(xs: seq<T>)
    ensures forall i, j :: 0 <= i < j < |Dedup(xs)| ==> OccursBefore(xs, Dedup(xs)[i], Dedup(xs)[j])
  {
    if xs != [] {
      var n := |xs| - 1;
      var before, d := Dedup(xs[..n]), Dedup(xs);
      DedupInOrder(xs[..n]);
      DedupProperties(xs[..n]);
      forall i, j | 0 <= i < j < |d| ensures OccursBefore(xs, d[i], d[j]) {
        assert xs == xs[..n] + [xs[n]];
        if j < |before| {
          assert d[i] == before[i] && d[j] == before[j];
          assert OccursBefore(xs[..n], before[i], before[j]);
          StillBefore(xs[..n], xs[n], d[i], d[j]);
        } else {
          assert before[i] in before;
          OccursBeforeLast(xs[..n], xs[n], d[i]);
        }
      }
    }
  }

  lemma StillBefore<T>(xs: seq<T>, last: T, x: T, y: T)
    requires OccursBefore(xs, x, y)
    ensures OccursBefore(xs + [last], x, y)
  {
    var p :| 0 <= p < |xs| && xs[p] == x && y !in xs[..p];
    assert (xs + [last])[..p] == xs[..p] && (xs + [last])[p] == x;
  }

  lemma OccursBeforeLast<T>(xs: seq<T>, last: T, x: T)
    requires x in xs && last !in xs
    ensures OccursBefore(xs + [last], x, last)
  {
    var p :| 0 <= p < |xs| && xs[p] == x;
    assert (xs + [last])[..p] == xs[..p] && (xs + [last])[p] == x;
    assert forall y :: y in xs[..p] ==> y in xs;
  }

  lemma DedupIsFirst<T(!new)>(xs: seq<T>)
    ensures FirstOccurrences(Dedup(xs), xs)
  {
    DedupProperties(xs);
    DedupInOrder(xs);
  }

  // The values first, then the types, marked as such unless there are no values; each once, and in the
  // order of their first occurrence.
  ghost predicate IsMerged(line: Line, mod: string, values: seq<string>, types: seq<string>) {
    if values == [] then line == TypeImport(types, mod)
    else
      && line.ValueImport? && line.mod == mod
      && |line.names| == |values| + |types| && line.names[..|values|] == values
      && forall i :: 0 <= i < |types| ==> line.names[|values| + i] == "type " + types[i]
  }

  // The one import a module is left with.
  lemma MergedImport(lines: seq<Line>, mod: string)
    requires Clean(lines) && Imported(lines, mod)
    ensures Merge(lines).Some?
    ensures exists k, values, types :: 0 <= k < |Merge(lines).value| &&
              IsMerged(Merge(lines).value[k], mod, values, types) &&
              FirstOccurrences(values, Listed(lines, mod, false)) && FirstOccurrences(types, Listed(lines, mod, true))
  {
    MergeIsBuilt(lines);
    var imports := Collected(lines);
    var k := BuiltHas(lines, imports, mod);
    BuiltOnePerModule(lines, imports);
    CollectedListed(lines, mod);
    DedupIsFirst(Listed(lines, mod, false));
    DedupIsFirst(Listed(lines, mod, true));
    var values, types := Dedup(Listed(lines, mod, false)), Dedup(Listed(lines, mod, true));
    assert IsMerged(LineFor(mod, NamesOf(imports, mod)), mod, values, types) by {
      assert values + Inlined([]) == values;
    }
    assert Built(lines, imports)[k] == LineFor(mod, NamesOf(imports, mod));
  }
}
