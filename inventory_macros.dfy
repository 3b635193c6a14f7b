/** The inventory document parser that `inventory_parser!` expands to, written as one
    interpreter over the parser declaration: the header checks on `identity`, then
    each declared section in order, and within it each field in order, stopping at
    the first failure with the message the macros format. */
module InventoryMacros {
  import opened Wrappers
  import opened Yaml

  // ---------------------------------------------------------------- capitalise

  /** The upper case of an ASCII letter; every other character is left alone. */
  function UpperAscii(c: char): (u: char)
    ensures 'a' <= c <= 'z' ==> 'A' <= u <= 'Z' && u as int == c as int - 32
    ensures !('a' <= c <= 'z') ==> u == c
  {
    if 'a' <= c <= 'z' then (c as int - 32) as char else c
  }

  /** `capitalise`: the first character in upper case, the rest unchanged; the empty
      string stays empty. */
  function Capitalise(s: string): (r: string)
    ensures |r| == |s|
    ensures s != [] ==> r[0] == UpperAscii(s[0]) && r[1..] == s[1..]
  {
    if s == [] then "" else [UpperAscii(s[0])] + s[1..]
  }

  /** Capitalising twice is capitalising once. */
  lemma CapitaliseIdempotent(s: string)
    ensures Capitalise(Capitalise(s)) == Capitalise(s)
  {
  }

  /** Only the first character can change. */
  lemma CapitaliseChangesOnlyFirst(s: string, i: nat)
    requires 0 < i < |s|
    ensures Capitalise(s)[i] == s[i]
  {
    assert Capitalise(s)[1..][i - 1] == s[1..][i - 1];
  }

  // ---------------------------------------------------------------- declarations

  /** `req`, `opt` and `vec` fields of type `String`. */
  datatype FieldKind = Req | Opt | Vec

  /** One field line, `kind name: String = "key";`. */
  datatype FieldDecl = FieldDecl(kind: FieldKind, name: string, key: string)

  /** One `section name { ... }` block. */
  datatype SectionDecl = SectionDecl(name: string, fields: seq<FieldDecl>)

  /** One `inventory_parser! { name ...; data ...; sections }` invocation. */
  datatype ParserDecl = ParserDecl(name: string, sections: seq<SectionDecl>)

  /** The value bound to a field's local: `String`, `Option<String>`, `Vec<String>`. */
  datatype FieldValue = Text(text: string) | MaybeText(maybe: Option<string>) | TextList(list: seq<string>)

  // ---------------------------------------------------------------- messages

  /** `stringify!` of a string literal keeps its double quotes. */
  function Quoted(key: string): string
  {
    "\"" + key + "\""
  }

  function NotMappingMessage(name: string): string
  {
    Capitalise(name) + " must be a dictionary"
  }

  function NoIdentityMessage(name: string): string
  {
    Capitalise(name) + " must contain an 'identity' section"
  }

  function IdentityNotMappingMessage(name: string): string
  {
    Capitalise(name) + " 'identity' must be a dictionary"
  }

  function NoTypeMessage(name: string): string
  {
    Capitalise(name) + " 'identity' must contain 'type'"
  }

  function TypeNotStringMessage(name: string): string
  {
    Capitalise(name) + " 'identity.type' must be a string"
  }

  function WrongTypeMessage(name: string): string
  {
    Capitalise(name) + " 'identity.type' must be '" + name + "'"
  }

  function NoSectionMessage(name: string, section: string): string
  {
    Capitalise(name) + " must contain section '" + section + "'"
  }

  function SectionNotMappingMessage(name: string, section: string): string
  {
    Capitalise(name) + " section '" + section + "' must be a dictionary"
  }

  /** Field messages start with the capitalised name of the field's local, which the
      section macro's own `$name` shadows, not with the document name. */
  function NoFieldMessage(field: FieldDecl, section: string): string
  {
    Capitalise(field.name) + " section '" + section + "' must contain '" + Quoted(field.key) + "'"
  }

  function FieldNotStringMessage(field: FieldDecl, section: string): string
  {
    Capitalise(field.name) + " value '" + section + "." + Quoted(field.key) + "' must be a string"
  }

  function OptionalFieldNotStringMessage(field: FieldDecl, section: string): string
  {
    Capitalise(field.name) + " value '" + section + "." + Quoted(field.key) + "' must be a string (if present)"
  }

  // ---------------------------------------------------------------- the rules, declaratively

  /** The identity header is right: the document is a mapping whose `identity` is a
      mapping whose `type` is the string `name`. */
  predicate HeaderConforms(name: string, data: Yaml)
  {
    && data.YMapping?
    && var identity := Get(data.entries, "identity");
       && identity.Some? && identity.value.YMapping?
       && var t := Get(identity.value.entries, "type");
          t.Some? && t.value == YString(name)
  }

  /** A field is acceptable: a `req` key is present and a string, an `opt` key is
      absent or a string, a `vec` key is never looked at. */
  predicate FieldConforms(mapping: seq<(Yaml, Yaml)>, field: FieldDecl)
  {
    match field.kind
    case Req => Get(mapping, field.key).Some? && Get(mapping, field.key).value.YString?
    case Opt => Get(mapping, field.key).Some? ==> Get(mapping, field.key).value.YString?
    case Vec => true
  }

  /** The value a conforming field is bound to. */
  function FieldValueOf(mapping: seq<(Yaml, Yaml)>, field: FieldDecl): FieldValue
    requires FieldConforms(mapping, field)
  {
    match field.kind
    case Req => Text(Get(mapping, field.key).value.s)
    case Opt => MaybeText(if Get(mapping, field.key).Some? then Some(Get(mapping, field.key).value.s) else None)
    case Vec => TextList([])
  }

  predicate FieldsConform(mapping: seq<(Yaml, Yaml)>, fields: seq<FieldDecl>)
  {
    forall j :: 0 <= j < |fields| ==> FieldConforms(mapping, fields[j])
  }

  /** A section is present, is a mapping, and all its fields conform. */
  predicate SectionConforms(mapping: seq<(Yaml, Yaml)>, section: SectionDecl)
  {
    && Get(mapping, section.name).Some?
    && Get(mapping, section.name).value.YMapping?
    && FieldsConform(Get(mapping, section.name).value.entries, section.fields)
  }

  predicate SectionsConform(mapping: seq<(Yaml, Yaml)>, sections: seq<SectionDecl>)
  {
    forall i :: 0 <= i < |sections| ==> SectionConforms(mapping, sections[i])
  }

  /** The whole document is acceptable to `decl`. */
  predicate Conforms(decl: ParserDecl, data: Yaml)
  {
    HeaderConforms(decl.name, data) && SectionsConform(data.entries, decl.sections)
  }

  /** The message for a field that does not conform. */
  function FieldError(mapping: seq<(Yaml, Yaml)>, field: FieldDecl, section: string): string
    requires !FieldConforms(mapping, field)
  {
    if field.kind == Req then
      if Get(mapping, field.key).None? then NoFieldMessage(field, section) else FieldNotStringMessage(field, section)
    else
      OptionalFieldNotStringMessage(field, section)
  }

  /** The message for a section that is missing or not a mapping. */
  function SectionShapeError(name: string, mapping: seq<(Yaml, Yaml)>, section: string): string
  {
    if Get(mapping, section).None? then NoSectionMessage(name, section) else SectionNotMappingMessage(name, section)
  }

  // ---------------------------------------------------------------- the parser

  /** One field line of `inventory_parser_section_logic!`. */
  function ParseField(mapping: seq<(Yaml, Yaml)>, field: FieldDecl, section: string): (r: Result<FieldValue, string>)
    ensures r.Ok? <==> FieldConforms(mapping, field)
    ensures r.Ok? ==> r.value == FieldValueOf(mapping, field)
    ensures r.Err? ==> r.error == FieldError(mapping, field, section)
  {
    match field.kind
    case Req =>
      (match Get(mapping, field.key)
       case None => Err(NoFieldMessage(field, section))
       case Some(value) =>
         match AsStr(value)
         case None => Err(FieldNotStringMessage(field, section))
         case Some(s) => Ok(Text(s)))
    case Opt =>
      (match Get(mapping, field.key)
       case None => Ok(MaybeText(None))
       case Some(value) =>
         match AsStr(value)
         case None => Err(OptionalFieldNotStringMessage(field, section))
         case Some(s) => Ok(MaybeText(Some(s))))
    case Vec => Ok(TextList([]))
  }

  /** The field lines of one section, in order, up to the first failure. */
  function ParseFields(mapping: seq<(Yaml, Yaml)>, fields: seq<FieldDecl>, section: string): (r: Result<seq<FieldValue>, string>)
    ensures r.Ok? <==> FieldsConform(mapping, fields)
    ensures r.Ok? ==> |r.value| == |fields| && forall j :: 0 <= j < |fields| ==> r.value[j] == FieldValueOf(mapping, fields[j])
    decreases |fields|
  {
    if fields == [] then Ok([])
    else
      match ParseField(mapping, fields[0], section)
      case Err(e) => Err(e)
      case Ok(v) =>
        match ParseFields(mapping, fields[1..], section)
        case Err(e) => Err(e)
        case Ok(vs) =>
          assert forall j :: 1 <= j < |fields| ==> fields[j] == fields[1..][j - 1];
          Ok([v] + vs)
  }

  /** One `section` block of `inventory_parser_logic!`: find the section, check that it
      is a mapping, then parse its fields. */
  function ParseSection(name: string, mapping: seq<(Yaml, Yaml)>, section: SectionDecl): (r: Result<seq<FieldValue>, string>)
    ensures r.Ok? <==> SectionConforms(mapping, section)
    ensures r.Ok? ==> |r.value| == |section.fields|
    ensures r.Ok? ==> forall j :: 0 <= j < |section.fields| ==>
      r.value[j] == FieldValueOf(Get(mapping, section.name).value.entries, section.fields[j])
  {
    match Get(mapping, section.name)
    case None => Err(NoSectionMessage(name, section.name))
    case Some(value) =>
      match AsMapping(value)
      case None => Err(SectionNotMappingMessage(name, section.name))
      case Some(sectionMapping) => ParseFields(sectionMapping, section.fields, section.name)
  }

  /** The section blocks, in order, up to the first failure; one list of values per
      section. */
  function ParseSections(name: string, mapping: seq<(Yaml, Yaml)>, sections: seq<SectionDecl>): (r: Result<seq<seq<FieldValue>>, string>)
    ensures r.Ok? <==> SectionsConform(mapping, sections)
    ensures r.Ok? ==> |r.value| == |sections|
    ensures r.Ok? ==> forall i :: 0 <= i < |sections| ==> r.value[i] == ParseSection(name, mapping, sections[i]).value
    decreases |sections|
  {
    if sections == [] then Ok([])
    else
      match ParseSection(name, mapping, sections[0])
      case Err(e) => Err(e)
      case Ok(v) =>
        match ParseSections(name, mapping, sections[1..])
        case Err(e) => Err(e)
        case Ok(vs) =>
          assert forall i :: 1 <= i < |sections| ==> sections[i] == sections[1..][i - 1];
          Ok([v] + vs)
  }

  /** The checks `inventory_parser!` makes before the sections: a mapping, with an
      `identity` mapping, whose `type` is the string naming the document kind. The
      result is the document's top-level mapping. */
  function ParseHeader(name: string, data: Yaml): (r: Result<seq<(Yaml, Yaml)>, string>)
    ensures r.Ok? <==> HeaderConforms(name, data)
    ensures r.Ok? ==> r.value == data.entries
  {
    match AsMapping(data)
    case None => Err(NotMappingMessage(name))
    case Some(mapping) =>
      match Get(mapping, "identity")
      case None => Err(NoIdentityMessage(name))
      case Some(rawIdentity) =>
        match AsMapping(rawIdentity)
        case None => Err(IdentityNotMappingMessage(name))
        case Some(identity) =>
          match Get(identity, "type")
          case None => Err(NoTypeMessage(name))
          case Some(rawType) =>
            match AsStr(rawType)
            case None => Err(TypeNotStringMessage(name))
            case Some(identityType) =>
              if identityType != name then Err(WrongTypeMessage(name)) else Ok(mapping)
  }

  /** The whole expansion: the header checks, then the sections. */
  function Parse(decl: ParserDecl, data: Yaml): (r: Result<seq<seq<FieldValue>>, string>)
    ensures r.Ok? <==> Conforms(decl, data)
    ensures r.Ok? ==> |r.value| == |decl.sections|
    ensures !HeaderConforms(decl.name, data) ==> r == Err(ParseHeader(decl.name, data).error)
  {
    match ParseHeader(decl.name, data)
    case Err(e) => Err(e)
    case Ok(mapping) => ParseSections(decl.name, mapping, decl.sections)
  }

  // ---------------------------------------------------------------- properties

  /** A document parses exactly when it conforms, and then every field is bound to
      the value the rules give it. */
  lemma ParseSucceedsIffConforms(decl: ParserDecl, data: Yaml)
    ensures Parse(decl, data).Ok? <==> Conforms(decl, data)
    ensures Parse(decl, data).Ok? ==>
      var vs := Parse(decl, data).value;
      && |vs| == |decl.sections|
      && forall i, j :: 0 <= i < |decl.sections| && 0 <= j < |decl.sections[i].fields| ==>
           |vs[i]| == |decl.sections[i].fields| &&
           vs[i][j] == FieldValueOf(Get(data.entries, decl.sections[i].name).value.entries, decl.sections[i].fields[j])
  {
    if Parse(decl, data).Ok? {
      var vs := Parse(decl, data).value;
      forall i | 0 <= i < |decl.sections|
        ensures |vs[i]| == |decl.sections[i].fields|
        ensures forall j :: 0 <= j < |decl.sections[i].fields| ==>
          vs[i][j] == FieldValueOf(Get(data.entries, decl.sections[i].name).value.entries, decl.sections[i].fields[j])
      {
        assert vs[i] == ParseSection(decl.name, data.entries, decl.sections[i]).value;
      }
    }
  }

  /** The fields are checked in order: when the first `j` conform and field `j` does
      not, the parse fails with field `j`'s message. */
  lemma {:induction false} FirstBadFieldIsReported(mapping: seq<(Yaml, Yaml)>, fields: seq<FieldDecl>, section: string, j: nat)
    requires j < |fields| && !FieldConforms(mapping, fields[j])
    requires forall k :: 0 <= k < j ==> FieldConforms(mapping, fields[k])
    ensures ParseFields(mapping, fields, section) == Err(FieldError(mapping, fields[j], section))
    decreases j
  {
    if j > 0 {
      FirstBadFieldIsReported(mapping, fields[1..], section, j - 1);
    }
  }

  /** The sections are checked in order: when the first `i` conform and section `i` is
      missing or not a mapping, the parse fails with that section's message. */
  lemma {:induction false} FirstBadSectionIsReported(name: string, mapping: seq<(Yaml, Yaml)>, sections: seq<SectionDecl>, i: nat)
    requires i < |sections|
    requires Get(mapping, sections[i].name).None? || !Get(mapping, sections[i].name).value.YMapping?
    requires forall k :: 0 <= k < i ==> SectionConforms(mapping, sections[k])
    ensures ParseSections(name, mapping, sections) == Err(SectionShapeError(name, mapping, sections[i].name))
    decreases i
  {
    if i > 0 {
      FirstBadSectionIsReported(name, mapping, sections[1..], i - 1);
    }
  }

  /** The header is checked before any section, in the order dictionary, `identity`,
      `identity` a dictionary, `type`, `type` a string, `type` right. */
  lemma HeaderErrors(decl: ParserDecl, data: Yaml)
    ensures !data.YMapping? ==> Parse(decl, data) == Err(NotMappingMessage(decl.name))
    ensures data.YMapping? && Get(data.entries, "identity").None? ==>
      Parse(decl, data) == Err(NoIdentityMessage(decl.name))
    ensures data.YMapping? && Get(data.entries, "identity").Some? && !Get(data.entries, "identity").value.YMapping? ==>
      Parse(decl, data) == Err(IdentityNotMappingMessage(decl.name))
    ensures data.YMapping? && Get(data.entries, "identity").Some? && Get(data.entries, "identity").value.YMapping? ==>
      var identity := Get(data.entries, "identity").value.entries;
      && (Get(identity, "type").None? ==> Parse(decl, data) == Err(NoTypeMessage(decl.name)))
      && (Get(identity, "type").Some? && !Get(identity, "type").value.YString? ==>
            Parse(decl, data) == Err(TypeNotStringMessage(decl.name)))
      && (Get(identity, "type").Some? && Get(identity, "type").value.YString? && Get(identity, "type").value.s != decl.name ==>
            Parse(decl, data) == Err(WrongTypeMessage(decl.name)))
  {
  }

  // ---------------------------------------------------------------- the map arm

  /** The outcome of a `map` field: a value, or the panic on a key that is not a
      string. */
  datatype MapOutcome<V> = Panicked | Finished(result: Result<map<string, V>, string>)

  function MapNotMappingMessage(field: string, section: string, key: string): string
  {
    Capitalise(field) + " value '" + section + "." + Quoted(key) + "' must be a dictionary"
  }

  function MapMemberMessage(field: string, section: string, key: string, typeName: string, description: string): string
  {
    Capitalise(field) + " value '" + section + "." + Quoted(key) + "' members must be " + typeName + ": " + description
  }

  /** The entries walked in order into a map, each value decoded by `decode` (which
      gives the decoder's error description on failure): a non-string key panics, a
      failed decode stops the walk with its message, and a later entry with the same
      key replaces an earlier one. */
  function CollectEntries<V>(entries: seq<(Yaml, Yaml)>, acc: map<string, V>, field: string, section: string, key: string,
                             typeName: string, decode: Yaml -> Result<V, string>): MapOutcome<V>
    decreases |entries|
  {
    if entries == [] then Finished(Ok(acc))
    else if !entries[0].0.YString? then Panicked
    else
      match decode(entries[0].1)
      case Err(description) => Finished(Err(MapMemberMessage(field, section, key, typeName, description)))
      case Ok(v) => CollectEntries(entries[1..], acc[entries[0].0.s := v], field, section, key, typeName, decode)
  }

  /** A `map` field: absent is an empty mapping; present but not a mapping is an
      error; otherwise the collected entries. */
  function MapField<V>(mapping: seq<(Yaml, Yaml)>, field: string, section: string, key: string, typeName: string,
                       decode: Yaml -> Result<V, string>): (r: MapOutcome<V>)
    ensures Get(mapping, key).None? ==> r == Finished(Ok(map[]))
    ensures Get(mapping, key).Some? && !Get(mapping, key).value.YMapping? ==>
      r == Finished(Err(MapNotMappingMessage(field, section, key)))
  {
    var value := match Get(mapping, key) case None => YMapping([]) case Some(v) => v;
    match AsMapping(value)
    case None => Finished(Err(MapNotMappingMessage(field, section, key)))
    case Some(entries) => CollectEntries(entries, map[], field, section, key, typeName, decode)
  }

  /** The string keys among `entries`. */
  function StringKeys(entries: seq<(Yaml, Yaml)>): set<string>
    decreases |entries|
  {
    if entries == [] then {}
    else (if entries[0].0.YString? then {entries[0].0.s} else {}) + StringKeys(entries[1..])
  }

  /** A string key belongs to `StringKeys` exactly when some entry carries it. */
  lemma {:induction false} StringKeysMembers(entries: seq<(Yaml, Yaml)>, k: string)
    ensures k in StringKeys(entries) <==> exists i :: 0 <= i < |entries| && entries[i].0 == YString(k)
    decreases |entries|
  {
    if entries != [] {
      StringKeysMembers(entries[1..], k);
      if exists i :: 0 <= i < |entries[1..]| && entries[1..][i].0 == YString(k) {
        var i :| 0 <= i < |entries[1..]| && entries[1..][i].0 == YString(k);
        assert entries[i + 1].0 == YString(k);
      }
      if exists i :: 0 <= i < |entries| && entries[i].0 == YString(k) {
        var i :| 0 <= i < |entries| && entries[i].0 == YString(k);
        if i > 0 { assert entries[1..][i - 1].0 == YString(k); }
      }
    }
  }

  /** When every key is a string, every value decodes and no key repeats, the walk
      yields exactly the decoded entries, on top of what was collected before. */
  lemma {:induction false} CollectAll<V>(entries: seq<(Yaml, Yaml)>, acc: map<string, V>, field: string, section: string,
                                         key: string, typeName: string, decode: Yaml -> Result<V, string>)
    requires forall i :: 0 <= i < |entries| ==> entries[i].0.YString? && decode(entries[i].1).Ok?
    requires forall i, j :: 0 <= i < j < |entries| ==> entries[i].0 != entries[j].0
    ensures var r := CollectEntries(entries, acc, field, section, key, typeName, decode);
      && r.Finished? && r.result.Ok?
      && r.result.value.Keys == acc.Keys + StringKeys(entries)
      && (forall i :: 0 <= i < |entries| ==>
            entries[i].0.s in r.result.value && r.result.value[entries[i].0.s] == decode(entries[i].1).value)
      && (forall k :: k in acc && k !in StringKeys(entries) ==> r.result.value[k] == acc[k])
    decreases |entries|
  {
    if entries != [] {
      var rest := entries[1..];
      var k0 := entries[0].0.s;
      var acc' := acc[k0 := decode(entries[0].1).value];
      CollectAll(rest, acc', field, section, key, typeName, decode);
      var m := CollectEntries(rest, acc', field, section, key, typeName, decode).result.value;
      assert k0 !in StringKeys(rest) by {
        StringKeysMembers(rest, k0);
      }
      forall i | 0 <= i < |entries|
        ensures entries[i].0.s in m && m[entries[i].0.s] == decode(entries[i].1).value
      {
        if i > 0 { assert entries[i] == rest[i - 1]; }
      }
    }
  }

  /** A present `map` field whose keys are distinct strings and whose values all
      decode gives exactly those entries, decoded. */
  lemma MapFieldCollectsEntries<V>(mapping: seq<(Yaml, Yaml)>, field: string, section: string, key: string,
                                   typeName: string, decode: Yaml -> Result<V, string>)
    requires Get(mapping, key).Some? && Get(mapping, key).value.YMapping?
    requires var es := Get(mapping, key).value.entries;
      && (forall i :: 0 <= i < |es| ==> es[i].0.YString? && decode(es[i].1).Ok?)
      && (forall i, j :: 0 <= i < j < |es| ==> es[i].0 != es[j].0)
    ensures var es := Get(mapping, key).value.entries;
      var r := MapField(mapping, field, section, key, typeName, decode);
      && r.Finished? && r.result.Ok?
      && r.result.value.Keys == StringKeys(es)
      && forall i :: 0 <= i < |es| ==> es[i].0.s in r.result.value && r.result.value[es[i].0.s] == decode(es[i].1).value
  {
    var es := Get(mapping, key).value.entries;
    CollectAll(es, map[], field, section, key, typeName, decode);
  }

  /** The walk stops at the first failed decode, even when a later key would have
      panicked; a non-string key reached before any failure panics. */
  lemma {:induction false} CollectStopsAtFirstProblem<V>(entries: seq<(Yaml, Yaml)>, acc: map<string, V>, field: string,
                                                         section: string, key: string, typeName: string,
                                                         decode: Yaml -> Result<V, string>, n: nat)
    requires n < |entries|
    requires forall i :: 0 <= i < n ==> entries[i].0.YString? && decode(entries[i].1).Ok?
    ensures !entries[n].0.YString? ==> CollectEntries(entries, acc, field, section, key, typeName, decode) == Panicked
    ensures entries[n].0.YString? && decode(entries[n].1).Err? ==>
      CollectEntries(entries, acc, field, section, key, typeName, decode)
        == Finished(Err(MapMemberMessage(field, section, key, typeName, decode(entries[n].1).error)))
    decreases n
  {
    if n > 0 {
      CollectStopsAtFirstProblem(entries[1..], acc[entries[0].0.s := decode(entries[0].1).value],
                                 field, section, key, typeName, decode, n - 1);
    }
  }
}
