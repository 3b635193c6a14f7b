/** `InventoryClass::new`: the class document parsed by the inventory parser with
    one `identity` section and one `class` section. */
module InventoryClass {
  import opened Wrappers
  import opened Yaml
  import opened InventoryMacros

  /** A parsed class: the raw document and the four fields the accessors expose. */
  datatype InventoryClass = InventoryClass(
    rawData: Yaml,
    identityName: string,
    classNamespace: string,
    classParentNamespace: Option<string>,
    classGroups: seq<string>)

  /** The declaration `InventoryClass::new` passes to `inventory_parser!`. */
  const ClassDecl := ParserDecl("class", [
    SectionDecl("identity", [FieldDecl(Req, "identity_name", "name")]),
    SectionDecl("class", [
      FieldDecl(Req, "class_namespace", "namespace"),
      FieldDecl(Opt, "class_parent_namespace", "parent_namespace"),
      FieldDecl(Vec, "class_groups", "groups")])
  ])

  /** The `identity` mapping of a document that has one. */
  function Identity(raw: Yaml): seq<(Yaml, Yaml)>
    requires raw.YMapping? && Get(raw.entries, "identity").Some? && Get(raw.entries, "identity").value.YMapping?
  {
    Get(raw.entries, "identity").value.entries
  }

  /** The `class` mapping of a document that has one. */
  function ClassSection(raw: Yaml): seq<(Yaml, Yaml)>
    requires raw.YMapping? && Get(raw.entries, "class").Some? && Get(raw.entries, "class").value.YMapping?
  {
    Get(raw.entries, "class").value.entries
  }

  /** A valid class document, stated directly: a mapping; `identity` a mapping with
      `type: class` and a string `name`; `class` a mapping with a string `namespace`
      and, if present, a string `parent_namespace`. `groups` is never looked at. */
  predicate IsClassDocument(raw: Yaml)
  {
    && raw.YMapping?
    && Get(raw.entries, "identity").Some? && Get(raw.entries, "identity").value.YMapping?
    && Get(Identity(raw), "type") == Some(YString("class"))
    && Get(Identity(raw), "name").Some? && Get(Identity(raw), "name").value.YString?
    && Get(raw.entries, "class").Some? && Get(raw.entries, "class").value.YMapping?
    && Get(ClassSection(raw), "namespace").Some? && Get(ClassSection(raw), "namespace").value.YString?
    && (Get(ClassSection(raw), "parent_namespace").Some? ==> Get(ClassSection(raw), "parent_namespace").value.YString?)
  }

  /** `InventoryClass::new`: parse, then build the class from the parsed fields; the
      groups are replaced by an empty list whatever the document says. */
  function New(raw: Yaml): (r: Result<InventoryClass, string>)
    ensures r.Ok? <==> IsClassDocument(raw)
    ensures r.Ok? ==>
      && r.value.rawData == raw
      && r.value.identityName == Get(Identity(raw), "name").value.s
      && r.value.classNamespace == Get(ClassSection(raw), "namespace").value.s
      && r.value.classParentNamespace ==
           (if Get(ClassSection(raw), "parent_namespace").Some? then Some(Get(ClassSection(raw), "parent_namespace").value.s) else None)
      && r.value.classGroups == []
    ensures r.Err? ==> Parse(ClassDecl, raw).Err? && r.error == Parse(ClassDecl, raw).error
  {
    ClassDocumentsConform(raw);
    match Parse(ClassDecl, raw)
    case Err(e) => Err(e)
    case Ok(values) =>
      var classGroups := [];
      Ok(InventoryClass(raw, values[0][0].text, values[1][0].text, values[1][1].maybe, classGroups))
  }

  /** The class declaration, run through the generic rules, accepts exactly the class
      documents, and binds each field to the value read from its key. */
  lemma ClassDocumentsConform(raw: Yaml)
    ensures Parse(ClassDecl, raw).Ok? <==> IsClassDocument(raw)
    ensures Parse(ClassDecl, raw).Ok? ==>
      var values := Parse(ClassDecl, raw).value;
      && |values| == 2 && |values[0]| == 1 && |values[1]| == 3
      && values[0][0] == Text(Get(Identity(raw), "name").value.s)
      && values[1][0] == Text(Get(ClassSection(raw), "namespace").value.s)
      && values[1][1] == MaybeText(if Get(ClassSection(raw), "parent_namespace").Some?
                                   then Some(Get(ClassSection(raw), "parent_namespace").value.s) else None)
  {
    ParseSucceedsIffConforms(ClassDecl, raw);
    assert ClassDecl.sections[0].fields[0] == FieldDecl(Req, "identity_name", "name");
    assert ClassDecl.sections[1].fields[0] == FieldDecl(Req, "class_namespace", "namespace");
    assert ClassDecl.sections[1].fields[1] == FieldDecl(Opt, "class_parent_namespace", "parent_namespace");
  }

  /** A document whose `identity.type` is some other kind is refused with the message
      naming the expected kind. */
  lemma WrongTypeIsRefused(raw: Yaml, t: string)
    requires raw.YMapping? && Get(raw.entries, "identity").Some? && Get(raw.entries, "identity").value.YMapping?
    requires Get(Identity(raw), "type") == Some(YString(t)) && t != "class"
    ensures New(raw) == Err(WrongTypeMessage("class"))
    ensures New(raw).error[..5] == "Class"
  {
    assert Parse(ClassDecl, raw) == Err(WrongTypeMessage("class")) by {
      HeaderErrors(ClassDecl, raw);
    }
    CapitalisedNames();
  }

  /** A missing `identity.name` is reported under the capitalised local name
      `Identity_name` (not under `Class`), with the key in double quotes. */
  lemma MissingNameMessage(raw: Yaml)
    requires raw.YMapping? && Get(raw.entries, "identity").Some? && Get(raw.entries, "identity").value.YMapping?
    requires Get(Identity(raw), "type") == Some(YString("class"))
    requires Get(Identity(raw), "name").None?
    ensures New(raw) == Err(NoFieldMessage(FieldDecl(Req, "identity_name", "name"), "identity"))
    ensures New(raw).error[..13] == "Identity_name"
  {
    var message := NoFieldMessage(ClassDecl.sections[0].fields[0], "identity");
    assert ParseSection("class", raw.entries, ClassDecl.sections[0]) == Err(message) by {
      FirstBadFieldIsReported(Identity(raw), ClassDecl.sections[0].fields, "identity", 0);
    }
    assert ParseHeader("class", raw) == Ok(raw.entries);
    assert ParseSections("class", raw.entries, ClassDecl.sections) == Err(message);
    CapitalisedNames();
  }

  /** A document with no `class` section names the document kind and the section. */
  lemma MissingClassSectionMessage(raw: Yaml)
    requires raw.YMapping? && Get(raw.entries, "identity").Some? && Get(raw.entries, "identity").value.YMapping?
    requires Get(Identity(raw), "type") == Some(YString("class"))
    requires Get(Identity(raw), "name").Some? && Get(Identity(raw), "name").value.YString?
    requires Get(raw.entries, "class").None?
    ensures New(raw) == Err(NoSectionMessage("class", "class"))
  {
    FirstBadSectionIsReported("class", raw.entries, ClassDecl.sections, 1);
  }

  /** The capitalised names that open the class parser's messages. */
  lemma CapitalisedNames()
    ensures Capitalise("class") == "Class"
    ensures Capitalise("identity_name") == "Identity_name"
  {
  }
}
