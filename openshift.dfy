/**
 * The OpenShift provider's custom-attribute payloads and its add/edit form mapping
 * (cfme/containers/provider/openshift.py). The REST calls themselves are left out: the
 * attributes already on the provider and the certificate are inputs, and each operation
 * returns the payload it would post, or the exception it raises first.
 */
module Openshift {
  import opened Wrappers
  import opened PyText
  import opened Seqs

  /** The Python values that appear in attribute fields and form arguments. */
  datatype PyValue = PyNone | PyBool(b: bool) | PyInt(i: int) | PyStr(s: string)

  /** Python truthiness. */
  predicate Truthy(v: PyValue)
  {
    match v
    case PyNone => false
    case PyBool(b) => b
    case PyInt(i) => i != 0
    case PyStr(s) => |s| > 0
  }

  /** `str(v)`. */
  function Str(v: PyValue): string
  {
    match v
    case PyNone => "None"
    case PyBool(b) => if b then "True" else "False"
    case PyInt(i) => IntToStr(i)
    case PyStr(s) => s
  }

  /** `str` of an integer is read back by `int`, so a stringified attribute value keeps
      its number. */
  lemma StrIntReadsBack(i: int)
    ensures ParseInt(Str(PyInt(i))) == Some(i)
  {
    IntToStrRoundTrip(i);
  }

  /** `CustomAttribute(name, value, field_type=None, href=None)`. */
  datatype CustomAttribute = CustomAttribute(name: string, value: PyValue, fieldType: PyValue, href: PyValue)

  /** A positional argument: an instance of `CustomAttribute`, an instance of a subclass of
      it, a `str`, or a value of any other type. */
  datatype Arg = Attr(ca: CustomAttribute) | SubAttr(sub: CustomAttribute) | Name(s: string) | Other

  /** What an operation raises. */
  datatype PyError = TypeError | IndexError

  /** A JSON object of the payload. */
  type Resource = map<string, PyValue>

  /** The body posted to the provider's `custom_attributes` collection. */
  datatype Payload = Payload(action: string, resources: seq<Resource>)

  /** `isinstance(arg, CustomAttribute)`. */
  predicate IsInstance(a: Arg)
  {
    a.Attr? || a.SubAttr?
  }

  /** The attribute an instance argument carries. */
  function AttrOf(a: Arg): CustomAttribute
    requires IsInstance(a)
  {
    if a.Attr? then a.ca else a.sub
  }

  /** What `add_custom_attributes` and `edit_custom_attributes` accept: at least one
      argument, every one an instance of `CustomAttribute`. */
  predicate AllInstances(args: seq<Arg>)
  {
    |args| > 0 && forall i :: 0 <= i < |args| ==> IsInstance(args[i])
  }

  // ---------------------------------------------------------------------------------
  // add_custom_attributes

  /** The object posted for one added attribute: its name, its value as a string, and its
      field type exactly when that is truthy. */
  predicate AddedResource(res: Resource, ca: CustomAttribute)
  {
    && res.Keys <= {"name", "value", "field_type"}
    && "name" in res && res["name"] == PyStr(ca.name)
    && "value" in res && res["value"] == PyStr(Str(ca.value))
    && ("field_type" in res <==> Truthy(ca.fieldType))
    && ("field_type" in res ==> res["field_type"] == ca.fieldType)
  }

  /** The object built for an added attribute before its field type is looked at. */
  function NameAndValue(ca: CustomAttribute): Resource
  {
    map["name" := PyStr(ca.name), "value" := PyStr(Str(ca.value))]
  }

  /** Setting the field type exactly when it is truthy completes the object. */
  lemma NameAndValueTyped(ca: CustomAttribute)
    ensures Truthy(ca.fieldType) ==> AddedResource(NameAndValue(ca)["field_type" := ca.fieldType], ca)
    ensures !Truthy(ca.fieldType) ==> AddedResource(NameAndValue(ca), ca)
  {
  }

  /** `add_custom_attributes(*args)`: the arguments are checked, the resources are built in
      argument order, then the truthy field types are set on them one by one. */
  method AddCustomAttributes(args: seq<Arg>) returns (r: Result<Payload, PyError>)
    ensures r.Success? <==> AllInstances(args)
    ensures r.Failure? ==> r.error == TypeError
    ensures r.Success? ==>
              && r.value.action == "add"
              && |r.value.resources| == |args|
              && forall i :: 0 <= i < |args| ==> AddedResource(r.value.resources[i], AttrOf(args[i]))
  {
    if |args| == 0 {
      return Failure(TypeError);
    }
    for i := 0 to |args|
      invariant forall j :: 0 <= j < i ==> IsInstance(args[j])
    {
      if !IsInstance(args[i]) {
        return Failure(TypeError);
      }
    }
    var resources: seq<Resource> := seq(|args|, i requires 0 <= i < |args| => NameAndValue(AttrOf(args[i])));
    var fieldTypes := seq(|args|, i requires 0 <= i < |args| => AttrOf(args[i]).fieldType);
    for i := 0 to |args|
      invariant |resources| == |args|
      invariant forall j :: 0 <= j < i ==> AddedResource(resources[j], AttrOf(args[j]))
      invariant forall j :: i <= j < |args| ==> resources[j] == NameAndValue(AttrOf(args[j]))
    {
      NameAndValueTyped(AttrOf(args[i]));
      if Truthy(fieldTypes[i]) {
        resources := resources[i := resources[i]["field_type" := fieldTypes[i]]];
      }
    }
    return Success(Payload("add", resources));
  }

  /** An added integer value is posted as text that reads back as the same integer. */
  lemma AddedIntReadsBack(res: Resource, ca: CustomAttribute, i: int)
    requires AddedResource(res, ca) && ca.value == PyInt(i)
    ensures res["value"].PyStr? && ParseInt(res["value"].s) == Some(i)
  {
    StrIntReadsBack(i);
  }

  // ---------------------------------------------------------------------------------
  // Selecting existing attributes by name

  /** The existing attributes whose name is among `names`, in existing order (the
      comprehension of `delete_custom_attributes`, and with one name the `filter` of
      `edit_custom_attributes`). */
  function Selected(existing: seq<CustomAttribute>, names: seq<string>): seq<CustomAttribute>
  {
    if |existing| == 0 then []
    else
      var last := existing[|existing| - 1];
      Selected(existing[..|existing| - 1], names) + (if last.name in names then [last] else [])
  }

  /** An attribute is selected exactly when it exists and its name is selected. */
  lemma {:induction false} SelectedMembers(existing: seq<CustomAttribute>, names: seq<string>, x: CustomAttribute)
    ensures x in Selected(existing, names) <==> x in existing && x.name in names
  {
    if |existing| > 0 {
      var init := existing[..|existing| - 1];
      SelectedMembers(init, names, x);
      SplitLast(existing);
      assert x in existing <==> x in init || x == existing[|existing| - 1];
    }
  }

  /** Selecting keeps the existing order: selecting from two runs of attributes is
      selecting from each in turn. */
  lemma {:induction false} SelectedAppend(a: seq<CustomAttribute>, b: seq<CustomAttribute>, names: seq<string>)
    ensures Selected(a + b, names) == Selected(a, names) + Selected(b, names)
    decreases |b|
  {
    if |b| == 0 {
      assert a + b == a;
    } else {
      var init := b[..|b| - 1];
      var last := b[|b| - 1];
      SelectedAppend(a, init, names);
      SplitLast(b);
      AppendAssoc(a, init, [last]);
      assert (a + b)[..|a + b| - 1] == a + init;
      assert (a + b)[|a + b| - 1] == last;
      var tail := if last.name in names then [last] else [];
      AppendAssoc(Selected(a, names), Selected(init, names), tail);
    }
  }

  /** `[attr.name for attr in attribs]`. */
  function NamesOf(existing: seq<CustomAttribute>): (r: seq<string>)
    ensures |r| == |existing|
    ensures forall i :: 0 <= i < |existing| ==> r[i] == existing[i].name
  {
    seq(|existing|, i requires 0 <= i < |existing| => existing[i].name)
  }

  /** Selecting by all the existing names selects every existing attribute. */
  lemma {:induction false} SelectAll(existing: seq<CustomAttribute>, names: seq<string>)
    requires forall i :: 0 <= i < |existing| ==> existing[i].name in names
    ensures Selected(existing, names) == existing
  {
    if |existing| > 0 {
      var init := existing[..|existing| - 1];
      SelectAll(init, names);
      SplitLast(existing);
    }
  }

  /** The index of the last existing attribute with the name. */
  function LastNamed(existing: seq<CustomAttribute>, name: string): (r: Option<nat>)
    ensures r.Some? ==> r.value < |existing| && existing[r.value].name == name
                        && forall j :: r.value < j < |existing| ==> existing[j].name != name
    ensures r.None? ==> forall j :: 0 <= j < |existing| ==> existing[j].name != name
  {
    if |existing| == 0 then None
    else if existing[|existing| - 1].name == name then Some(|existing| - 1)
    else
      var r := LastNamed(existing[..|existing| - 1], name);
      assert forall j :: 0 <= j < |existing| - 1 ==> existing[..|existing| - 1][j] == existing[j];
      r
  }

  /** `filter(lambda attr: attr.name == name, attribs)[-1]` is the last attribute with the
      name, and the filter is empty exactly when no attribute has it. */
  lemma {:induction false} SelectedLastIsLastNamed(existing: seq<CustomAttribute>, name: string)
    ensures var s := Selected(existing, [name]);
            && (|s| > 0 <==> LastNamed(existing, name).Some?)
            && (|s| > 0 ==> s[|s| - 1] == existing[LastNamed(existing, name).value])
  {
    if |existing| > 0 {
      var init := existing[..|existing| - 1];
      SelectedLastIsLastNamed(init, name);
      if existing[|existing| - 1].name != name {
        assert Selected(existing, [name]) == Selected(init, [name]);
        match LastNamed(init, name)
        case None =>
        case Some(k) => assert init[k] == existing[k];
      }
    }
  }

  // ---------------------------------------------------------------------------------
  // edit_custom_attributes

  /** Every argument's name is that of some existing attribute. */
  predicate AllNamed(args: seq<Arg>, existing: seq<CustomAttribute>)
    requires AllInstances(args)
  {
    forall i :: 0 <= i < |args| ==> LastNamed(existing, AttrOf(args[i]).name).Some?
  }

  /** The object posted for one edited attribute: the href of the last existing attribute
      with its name, and its value as given. */
  function EditedResource(ca: CustomAttribute, existing: seq<CustomAttribute>): Option<Resource>
  {
    var matches := Selected(existing, [ca.name]);
    if |matches| == 0 then None
    else Some(map["href" := matches[|matches| - 1].href, "value" := ca.value])
  }

  /** `edit_custom_attributes(*args)` against the attributes `existing` on the provider. */
  function EditCustomAttributes(args: seq<Arg>, existing: seq<CustomAttribute>): (r: Result<Payload, PyError>)
    ensures !AllInstances(args) ==> r == Failure(TypeError)
  {
    if !AllInstances(args) then Failure(TypeError)
    else EditResources(args, existing, 0, [])
  }

  /** The comprehension of the edit payload, from argument `i` on. */
  function EditResources(args: seq<Arg>, existing: seq<CustomAttribute>, i: nat, done: seq<Resource>): Result<Payload, PyError>
    requires AllInstances(args) && i <= |args|
    decreases |args| - i
  {
    if i == |args| then Success(Payload("edit", done))
    else
      match EditedResource(AttrOf(args[i]), existing)
      case None => Failure(IndexError)
      case Some(res) => EditResources(args, existing, i + 1, done + [res])
  }

  /** From argument `i` on, the edit raises `IndexError` exactly when a later argument
      names no existing attribute, and otherwise posts one resource per argument, each
      aimed at the last existing attribute with the argument's name. */
  lemma EditResourcesMeaning(args: seq<Arg>, existing: seq<CustomAttribute>, i: nat, done: seq<Resource>)
    requires AllInstances(args) && i <= |args|
    ensures var r := EditResources(args, existing, i, done);
            && (r.Success? <==> forall j :: i <= j < |args| ==> LastNamed(existing, AttrOf(args[j]).name).Some?)
            && (r.Failure? ==> r.error == IndexError)
            && (r.Success? ==>
                  && r.value.action == "edit"
                  && |r.value.resources| == |done| + |args| - i
                  && r.value.resources[..|done|] == done
                  && forall j :: i <= j < |args| ==>
                       var ca := AttrOf(args[j]);
                       r.value.resources[|done| + j - i] == map["href" := existing[LastNamed(existing, ca.name).value].href, "value" := ca.value])
  {
    EditResourcesFails(args, existing, i, done);
    if EditResources(args, existing, i, done).Success? {
      EditResourcesPayload(args, existing, i, done);
    }
  }

  /** From argument `i` on, the edit raises exactly when a later argument names no existing
      attribute, and what it raises is `IndexError`. */
  lemma {:induction false} EditResourcesFails(args: seq<Arg>, existing: seq<CustomAttribute>, i: nat, done: seq<Resource>)
    requires AllInstances(args) && i <= |args|
    ensures var r := EditResources(args, existing, i, done);
            && (r.Success? <==> forall j :: i <= j < |args| ==> LastNamed(existing, AttrOf(args[j]).name).Some?)
            && (r.Failure? ==> r.error == IndexError)
    decreases |args| - i
  {
    if i < |args| {
      var ca := AttrOf(args[i]);
      SelectedLastIsLastNamed(existing, ca.name);
      match EditedResource(ca, existing)
      case None =>
      case Some(res) =>
        EditResourcesFails(args, existing, i + 1, done + [res]);
    }
  }

  /** A successful edit from argument `i` on keeps the resources already built and adds
      one per later argument, aimed at the last existing attribute with its name. */
  lemma {:induction false} EditResourcesPayload(args: seq<Arg>, existing: seq<CustomAttribute>, i: nat, done: seq<Resource>)
    requires AllInstances(args) && i <= |args|
    requires EditResources(args, existing, i, done).Success?
    ensures var p := EditResources(args, existing, i, done).value;
            && p.action == "edit"
            && |p.resources| == |done| + |args| - i
            && p.resources[..|done|] == done
            && forall j :: i <= j < |args| ==>
                 var ca := AttrOf(args[j]);
                 && LastNamed(existing, ca.name).Some?
                 && p.resources[|done| + j - i] == map["href" := existing[LastNamed(existing, ca.name).value].href, "value" := ca.value]
    decreases |args| - i
  {
    if i < |args| {
      var ca := AttrOf(args[i]);
      SelectedLastIsLastNamed(existing, ca.name);
      var res := EditedResource(ca, existing).value;
      EditResourcesPayload(args, existing, i + 1, done + [res]);
      var rs := EditResources(args, existing, i + 1, done + [res]).value.resources;
      TakeTake(rs, |done| + 1, |done|);
      TakeAppend(done, [res]);
      assert rs[..|done| + 1] == done + [res];
      assert rs[|done|] == (done + [res])[|done|];
    } else {
      assert done[..|done|] == done;
    }
  }

  /** `edit_custom_attributes` raises `TypeError` on bad arguments, `IndexError` when an
      argument names no existing attribute, and otherwise posts one resource per argument
      in argument order, aimed at the last existing attribute of that name. */
  lemma EditMeaning(args: seq<Arg>, existing: seq<CustomAttribute>)
    ensures var r := EditCustomAttributes(args, existing);
            && (r.Success? <==> AllInstances(args) && AllNamed(args, existing))
            && (r.Failure? ==> (r.error == TypeError <==> !AllInstances(args)))
            && (r.Success? ==>
                  && r.value.action == "edit"
                  && |r.value.resources| == |args|
                  && forall j :: 0 <= j < |args| ==>
                       var ca := AttrOf(args[j]);
                       && LastNamed(existing, ca.name).Some?
                       && r.value.resources[j] == map["href" := existing[LastNamed(existing, ca.name).value].href, "value" := ca.value])
  {
    if AllInstances(args) {
      EditResourcesFails(args, existing, 0, []);
      if EditResources(args, existing, 0, []).Success? {
        EditPayloadFromStart(args, existing);
      }
    }
  }

  /** The payload of a successful edit, from the first argument on. */
  lemma EditPayloadFromStart(args: seq<Arg>, existing: seq<CustomAttribute>)
    requires AllInstances(args) && EditResources(args, existing, 0, []).Success?
    ensures var p := EditResources(args, existing, 0, []).value;
            && p.action == "edit"
            && |p.resources| == |args|
            && forall j :: 0 <= j < |args| ==>
                 var ca := AttrOf(args[j]);
                 && LastNamed(existing, ca.name).Some?
                 && p.resources[j] == map["href" := existing[LastNamed(existing, ca.name).value].href, "value" := ca.value]
  {
    var none: seq<Resource> := [];
    EditResourcesPayload(args, existing, 0, none);
    var rs := EditResources(args, existing, 0, none).value.resources;
    forall j | 0 <= j < |args|
      ensures var ca := AttrOf(args[j]);
              && LastNamed(existing, ca.name).Some?
              && rs[j] == map["href" := existing[LastNamed(existing, ca.name).value].href, "value" := ca.value]
    {
      assert |none| + j - 0 == j;
    }
  }

  // ---------------------------------------------------------------------------------
  // delete_custom_attributes

  /** `type(arg) in (str, CustomAttribute)`: a subclass instance is refused. */
  predicate Deletable(a: Arg)
  {
    a.Attr? || a.Name?
  }

  /** The name an accepted argument selects. */
  function ArgName(a: Arg): string
  {
    match a
    case Attr(ca) => ca.name
    case Name(s) => s
    case SubAttr(ca) => ca.name
    case Other => ""
  }

  function ArgNames(args: seq<Arg>): (r: seq<string>)
    ensures |r| == |args|
    ensures forall i :: 0 <= i < |args| ==> r[i] == ArgName(args[i])
  {
    seq(|args|, i requires 0 <= i < |args| => ArgName(args[i]))
  }

  /** The payload object for each attribute to delete. */
  function Hrefs(attrs: seq<CustomAttribute>): (r: seq<Resource>)
    ensures |r| == |attrs|
    ensures forall i :: 0 <= i < |attrs| ==> r[i] == map["href" := attrs[i].href]
  {
    seq(|attrs|, i requires 0 <= i < |attrs| => map["href" := attrs[i].href])
  }

  /** The names a delete selects: those of the arguments, or every existing name when
      there are no arguments. */
  function DeleteNames(args: seq<Arg>, existing: seq<CustomAttribute>): seq<string>
  {
    if |args| == 0 then NamesOf(existing) else ArgNames(args)
  }

  /** `delete_custom_attributes(*args)` against the attributes `existing` on the provider:
      the names are collected argument by argument, then the existing attributes with
      those names are deleted. */
  method DeleteCustomAttributes(args: seq<Arg>, existing: seq<CustomAttribute>) returns (r: Result<Payload, PyError>)
    ensures r.Success? <==> forall i :: 0 <= i < |args| ==> Deletable(args[i])
    ensures r.Failure? ==> r.error == TypeError
    ensures r.Success? ==> r.value == Payload("delete", Hrefs(Selected(existing, DeleteNames(args, existing))))
  {
    var names: seq<string> := [];
    for i := 0 to |args|
      invariant forall j :: 0 <= j < i ==> Deletable(args[j])
      invariant names == ArgNames(args[..i])
    {
      match args[i]
      case Attr(ca) => names := names + [ca.name];
      case Name(s) => names := names + [s];
      case _ => return Failure(TypeError);
    }
    assert args[..|args|] == args;
    if |names| == 0 {
      names := NamesOf(existing);
    }
    return Success(Payload("delete", Hrefs(Selected(existing, names))));
  }

  /** A delete without arguments deletes every existing attribute, in existing order. */
  lemma DeleteAllWhenNoNames(existing: seq<CustomAttribute>)
    ensures Selected(existing, DeleteNames([], existing)) == existing
  {
    SelectAll(existing, NamesOf(existing));
  }

  /** A delete with arguments deletes exactly the existing attributes that some argument
      names. */
  lemma DeleteSelectsNamed(args: seq<Arg>, existing: seq<CustomAttribute>, x: CustomAttribute)
    requires |args| > 0
    ensures x in Selected(existing, DeleteNames(args, existing)) <==>
            x in existing && exists i :: 0 <= i < |args| && ArgName(args[i]) == x.name
  {
    SelectedMembers(existing, ArgNames(args), x);
    var names := ArgNames(args);
    if x.name in names {
      var i :| 0 <= i < |names| && names[i] == x.name;
      assert ArgName(args[i]) == x.name;
    }
  }

  // ---------------------------------------------------------------------------------
  // _form_mapping

  /** The security protocol that uploads a trusted certificate. */
  const CustomCA := "SSL trusting custom CA"

  /** `kwargs.get(key)`. */
  function Get(kwargs: map<string, PyValue>, key: string): PyValue
  {
    if key in kwargs then kwargs[key] else PyNone
  }

  /** The dictionary `_form_mapping` returns: one field per key of the provider's add/edit
      form (`name_text`, `type_select`, `hostname_text`, `port_text`, `sec_protocol`,
      `zone_select`, `hawkular_hostname`, `hawkular_api_port`, `hawkular_sec_protocol`,
      `trusted_ca_certificates`, `hawkular_ca_certificates`). */
  datatype Form = Form(
    nameText: PyValue, typeSelect: PyValue, hostnameText: PyValue, portText: PyValue,
    secProtocol: PyValue, zoneSelect: PyValue, hawkularHostname: PyValue,
    hawkularApiPort: PyValue, hawkularSecProtocol: PyValue,
    trustedCaCertificates: PyValue, hawkularCaCertificates: PyValue)

  /** `_form_mapping(create, **kwargs)`. The appliance's `version > '5.8.0.3'` is `newer`
      and `get_cert()` is `cert`. */
  function FormMapping(create: PyValue, kwargs: map<string, PyValue>, newer: bool, cert: string): (r: Form)
    // a certificate is sent only for a custom-CA protocol, whatever the version
    ensures r.trustedCaCertificates != PyNone <==> Get(kwargs, "sec_protocol") == PyStr(CustomCA)
    ensures r.hawkularCaCertificates != PyNone <==> Get(kwargs, "hawkular_sec_protocol") == PyStr(CustomCA)
    ensures r.trustedCaCertificates != PyNone ==> r.trustedCaCertificates == PyStr(cert)
    ensures r.hawkularCaCertificates != PyNone ==> r.hawkularCaCertificates == PyStr(cert)
    // a newer appliance with hawkular keeps the three fields
    ensures newer && Truthy(Get(kwargs, "hawkular")) ==>
              && r.secProtocol == Get(kwargs, "sec_protocol")
              && r.hawkularHostname == Get(kwargs, "hawkular_hostname")
              && r.hawkularSecProtocol == Get(kwargs, "hawkular_sec_protocol")
    // a newer appliance without hawkular drops the hawkular endpoint
    ensures newer && !Truthy(Get(kwargs, "hawkular")) ==>
              && r.secProtocol == Get(kwargs, "sec_protocol")
              && r.hawkularHostname == PyNone && r.hawkularSecProtocol == PyNone
    // an older appliance drops the security protocol as well
    ensures !newer ==> r.secProtocol == PyNone && r.hawkularHostname == PyNone && r.hawkularSecProtocol == PyNone
    // `create and 'OpenShift'`
    ensures Truthy(create) ==> r.typeSelect == PyStr("OpenShift")
    ensures !Truthy(create) ==> r.typeSelect == create
    // the rest pass through
    ensures r.nameText == Get(kwargs, "name") && r.hostnameText == Get(kwargs, "hostname")
    ensures r.portText == Get(kwargs, "api_port") && r.zoneSelect == Get(kwargs, "zone")
    ensures r.hawkularApiPort == Get(kwargs, "hawkular_api_port")
  {
    var hawkular := Get(kwargs, "hawkular");
    var secProtocol := Get(kwargs, "sec_protocol");
    var hawkularHostname := Get(kwargs, "hawkular_hostname");
    var hawkularSecProtocol := Get(kwargs, "hawkular_sec_protocol");
    var defaultCa := if secProtocol == PyStr(CustomCA) then PyStr(cert) else PyNone;
    var hawkularCa := if hawkularSecProtocol == PyStr(CustomCA) then PyStr(cert) else PyNone;
    var sec := if newer then secProtocol else PyNone;
    var hHost := if newer && Truthy(hawkular) then hawkularHostname else PyNone;
    var hSec := if newer && Truthy(hawkular) then hawkularSecProtocol else PyNone;
    Form(
      Get(kwargs, "name"), if Truthy(create) then PyStr("OpenShift") else create,
      Get(kwargs, "hostname"), Get(kwargs, "api_port"), sec, Get(kwargs, "zone"),
      hHost, Get(kwargs, "hawkular_api_port"), hSec, defaultCa, hawkularCa)
  }

  /** Because the hawkular certificate is decided before the version nulls the hawkular
      fields, an older appliance (or a newer one without hawkular) gets the hawkular
      certificate with no hawkular protocol. */
  lemma HawkularCertificateWithoutProtocol(create: PyValue, kwargs: map<string, PyValue>, newer: bool, cert: string)
    requires Get(kwargs, "hawkular_sec_protocol") == PyStr(CustomCA)
    requires !newer || !Truthy(Get(kwargs, "hawkular"))
    ensures var r := FormMapping(create, kwargs, newer, cert);
            r.hawkularCaCertificates == PyStr(cert) && r.hawkularSecProtocol == PyNone
  {
  }
}
