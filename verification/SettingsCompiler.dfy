/** The compiler as it runs: a dictionary of section lines that each pass extends
    or rewrites in place. */
module SettingsCompiler {
  import opened Wrappers
  import opened Text
  import opened IniLine
  import opened ProfileLines
  import opened ProfileText
  import opened SettingsValues
  import opened IniFile
  import opened SettingsCompile

  lemma {:induction false} AppendAllTwice(ini: Ini, a: seq<Item>, b: seq<Item>)
    ensures AppendAll(ini, a + b) == AppendAll(AppendAll(ini, a), b)
  {
    if b == [] {
      assert a + b == a;
    } else {
      AppendAllTwice(ini, a, b[..|b| - 1]);
      assert (a + b)[..|a + b| - 1] == a + b[..|b| - 1];
    }
  }

  lemma AppendNothing(ini: Ini)
    ensures AppendAll(ini, []) == ini
  {
  }

  /** The section lines while they are being built. */
  class Sections {
    var ini: Ini

    constructor ()
      ensures ini == NO_SECTIONS
    {
      ini := NO_SECTIONS;
    }

    /** section_lines.setdefault(section, []).append(line) */
    method Add(section: string, line: string)
      modifies this
      ensures ini == Append(old(ini), section, line)
    {
      ini := Append(ini, section, line);
    }

    method AddLines(section: string, lines: seq<string>)
      modifies this
      ensures ini == AppendAll(old(ini), InSection(section, lines))
    {
      for i := 0 to |lines|
        invariant ini == AppendAll(old(ini), InSection(section, lines[..i]))
      {
        var items := InSection(section, lines[..i + 1]);
        assert items[..i] == InSection(section, lines[..i]);
        Add(section, lines[i]);
      }
      assert lines[..|lines|] == lines;
    }

    /** What one field adds: its value where it is written, and behind the force
        flag the partition's own selectors. */
    method LinesOfField(c: Catalog, doc: Doc, f: Field, m: string, p: Option<string>, values: Values)
      returns (lines: seq<string>)
      ensures lines == FieldLines(c, doc, f, m, p, values)
    {
      hide Written, SelectorActive, Entry;
      lines := [];
      if f in c.staking { return; }
      if Written(c, doc, f, m, p, ValueOf(values, f)) {
        lines := lines + [Entry("", f.key, ValueOf(values, f))];
      }
      if f == c.force && p.Some? {
        if SelectorActive(c, doc, c.pvpKey, m, p.value) {
          lines := lines + [Entry("+", c.pvpKey, p.value)];
        }
        if SelectorActive(c, doc, c.pveKey, m, p.value) {
          lines := lines + [Entry("+", c.pveKey, p.value)];
        }
      }
    }

    /** The field loop: a setting that differs from its default, and the partition's
        own selectors behind the force flag. */
    method AddFields(c: Catalog, doc: Doc, m: string, p: Option<string>, values: Values)
      modifies this
      ensures ini == AppendAll(old(ini), FieldItems(c, doc, c.fields, m, p, values))
    {
      hide FieldLines, AppendAll, Append;
      AppendNothing(ini);
      for i := 0 to |c.fields|
        invariant ini == AppendAll(old(ini), FieldItems(c, doc, c.fields[..i], m, p, values))
      {
        assert c.fields[..i + 1][..i] == c.fields[..i];
        var f := c.fields[i];
        var lines := LinesOfField(c, doc, f, m, p, values);
        AppendAllTwice(old(ini), FieldItems(c, doc, c.fields[..i], m, p, values), InSection(f.section, lines));
        AddLines(f.section, lines);
      }
      assert c.fields[..|c.fields|] == c.fields;
    }

    /** append_profile_unknown_lines. */
    method PassUnknown(c: Catalog, doc: Doc, layers: seq<Layer>)
      modifies this
      ensures ini == AppendAll(old(ini), UnknownItems(c, doc.sections, layers))
    {
      hide AppendAll, LayerItems, Append;
      AppendNothing(ini);
      for i := 0 to |layers|
        invariant ini == AppendAll(old(ini), UnknownItems(c, doc.sections, layers[..i]))
      {
        assert layers[..i + 1][..i] == layers[..i];
        AppendAllTwice(old(ini), UnknownItems(c, doc.sections, layers[..i]), LayerItems(c, doc.sections, layers[i]));
        PassLayer(c, doc.sections, layers[i]);
      }
      assert layers[..|layers|] == layers;
    }

    method PassLayer(c: Catalog, blocks: seq<Block>, layer: Layer)
      modifies this
      ensures ini == AppendAll(old(ini), LayerItems(c, blocks, layer))
    {
      hide AppendAll, PassesThrough, InLayer, Append;
      AppendNothing(ini);
      for i := 0 to |blocks|
        invariant ini == AppendAll(old(ini), LayerItems(c, blocks[..i], layer))
      {
        assert blocks[..i + 1][..i] == blocks[..i];
        var b := blocks[i];
        var passed: seq<string> := [];
        if InLayer(b, layer) {
          for j := 0 to |b.lines|
            invariant passed == Unknown(c, b.id.section, b.lines[..j])
            invariant ini == AppendAll(old(ini), LayerItems(c, blocks[..i], layer))
          {
            assert b.lines[..j + 1][..j] == b.lines[..j];
            if PassesThrough(c, b.id.section, b.lines[j]) {
              passed := passed + [b.lines[j]];
            }
          }
          assert b.lines[..|b.lines|] == b.lines;
          AppendAllTwice(old(ini), LayerItems(c, blocks[..i], layer), InSection(b.id.section, passed));
          AddLines(b.id.section, passed);
        } else {
          assert LayerItems(c, blocks[..i], layer) + [] == LayerItems(c, blocks[..i], layer);
        }
      }
      assert blocks[..|blocks|] == blocks;
    }

    /** The struct of each scope in turn replaces the one before. */
    method ReplaceData(c: Catalog, doc: Doc, layers: seq<Layer>)
      modifies this
      ensures ini == WithData(c, doc, layers, old(ini))
    {
      hide DataOverride, WithoutPrefix, Entry, Assign;
      for i := 0 to |layers|
        invariant ini == WithData(c, doc, layers[..i], old(ini))
      {
        assert layers[..i + 1][..i] == layers[..i];
        var data := DataOverride(c, doc, layers[i]);
        if data.Some? {
          var lines := LinesIn(ini, c.landsraad);
          var kept := WithoutPrefix(lines, c.dataKey + "=");
          ini := Assign(ini, c.landsraad, kept + [Entry("", c.dataKey, data.value)]);
        }
      }
      assert layers[..|layers|] == layers;
    }

    /** Exact repeats of a selector line collapse to the first. */
    method Dedupe(c: Catalog)
      modifies this
      ensures ini == if c.force.section in old(ini).lines
                     then Assign(old(ini), c.force.section, Deduped(LinesIn(old(ini), c.force.section))) else old(ini)
    {
      if c.force.section !in ini.lines { return; }
      var lines := ini.lines[c.force.section];
      var seen: set<string>, kept: seq<string> := {}, [];
      for i := 0 to |lines|
        invariant kept == Deduped(lines[..i]) && forall l :: l in seen <==> l in lines[..i]
        invariant ini == old(ini)
      {
        assert lines[..i + 1][..i] == lines[..i];
        assert lines[..i + 1] == lines[..i] + [lines[i]];
        if lines[i] !in seen {
          seen := seen + {lines[i]};
          kept := kept + [lines[i]];
        }
      }
      assert lines[..|lines|] == lines;
      ini := Assign(ini, c.force.section, kept);
    }

    /** strip_unsafe_staking_extension_lines on the building section. */
    method StripStaking(c: Catalog)
      modifies this
      ensures ini == if c.building in old(ini).lines
                     then Assign(old(ini), c.building, WithoutStaking(c, LinesIn(old(ini), c.building))) else old(ini)
    {
      hide IsStakingLine;
      if c.building !in ini.lines { return; }
      var lines := ini.lines[c.building];
      var kept: seq<string> := [];
      for i := 0 to |lines|
        invariant kept == WithoutStaking(c, lines[..i]) && ini == old(ini)
      {
        assert lines[..i + 1][..i] == lines[..i];
        if !IsStakingLine(c, lines[i]) {
          kept := kept + [lines[i]];
        }
      }
      assert lines[..|lines|] == lines;
      ini := Assign(ini, c.building, kept);
    }

    /** append_safe_staking_extension_arrays; false when a time is refused. */
    method AddStaking(c: Catalog, values: Values) returns (ok: bool)
      modifies this
      ensures ok == StakingItems(c, c.staking, values).Some?
      ensures ok ==> ini == AppendAll(old(ini), StakingItems(c, c.staking, values).value)
    {
      hide AppendAll, StakingLines, Append;
      AppendNothing(ini);
      for i := 0 to |c.staking|
        invariant StakingItems(c, c.staking[..i], values).Some?
        invariant ini == AppendAll(old(ini), StakingItems(c, c.staking[..i], values).value)
      {
        assert c.staking[..i + 1][..i] == c.staking[..i];
        var f := c.staking[i];
        var lines := StakingLines(c, f, ValueOf(values, f));
        if lines.None? {
          RefusedStays(c, c.staking, values, i + 1);
          return false;
        }
        AppendAllTwice(old(ini), StakingItems(c, c.staking[..i], values).value, InSection(c.building, lines.value));
        AddLines(c.building, lines.value);
      }
      assert c.staking[..|c.staking|] == c.staking;
      ok := true;
    }
  }

  lemma {:induction false} RefusedStays(c: Catalog, fields: seq<Field>, values: Values, i: nat)
    requires i <= |fields| && StakingItems(c, fields[..i], values).None?
    ensures StakingItems(c, fields, values).None?
    decreases |fields|
  {
    hide StakingLines;
    if i == |fields| {
      assert fields[..i] == fields;
    } else {
      assert fields[..|fields| - 1][..i] == fields[..i];
      RefusedStays(c, fields[..|fields| - 1], values, i);
    }
  }

  /** compiled_usergame_ini: the text of the file, or nothing when the cooldown or
      a staking time is refused. */
  method CompileUserGame(c: Catalog, doc: Doc, m: string, p: Option<string>) returns (text: Option<string>)
    ensures text == CompiledText(c, doc, m, p)
  {
    hide FieldItems, UnknownItems, StakingItems, WithData, Deduped, WithoutStaking, AppendAll, Entry, Join, Render,
         CooldownHours, CustomLayers;
    var values := ProfileValues(c, doc, m, p);
    var out := new Sections();
    out.AddFields(c, doc, m, p, values);
    var seconds := CooldownSeconds(c, doc, m, p);
    if seconds.None? { return None; }
    ghost var fields := FieldItems(c, doc, c.fields, m, p, values);
    ghost var cooldown := CooldownItems(c, seconds.value);
    if seconds.value.Some? {
      out.Add(c.building, Entry("", c.cooldownKey, seconds.value.value));
    }
    OneItem(AppendAll(NO_SECTIONS, fields), c, seconds.value);
    AppendAllTwice(NO_SECTIONS, fields, cooldown);
    AppendAllTwice(NO_SECTIONS, fields + cooldown, UnknownItems(c, doc.sections, Layers(m, p)));
    out.PassUnknown(c, doc, Layers(m, p));
    out.ReplaceData(c, doc, Layers(m, p));
    out.Dedupe(c);
    out.StripStaking(c);
    var ok := out.AddStaking(c, values);
    if !ok { return None; }
    text := Some(Join(Render(out.ini, c.comments)) + "\n");
  }

  lemma OneItem(ini: Ini, c: Catalog, seconds: Option<string>)
    ensures AppendAll(ini, CooldownItems(c, seconds)) ==
            match seconds
            case None => ini
            case Some(s) => Append(ini, c.building, Entry("", c.cooldownKey, s))
  {
    hide Append, Entry;
    var items := CooldownItems(c, seconds);
    if seconds.Some? {
      assert items[..0] == [];
    }
  }
}
