/** The per-structure emitter (buildFromTernDefinition.js:166-196): the
    structure's own comment, then `declare class T {` or `declare var T: {`
    around the tab-indented members, with a `declare namespace T { … }`
    block of the interfaces collected from the members put in front. */
module Emitter {
  import opened Results
  import opened Text
  import opened Descriptions

  /** The parts of a `Doc` that processDescription reads. */
  datatype DocValue = DocValue(title: string, description: seq<Item>, parameters: seq<Param>,
                               result: Returns, enumValues: seq<string>)

  function Snapshot(d: Doc): DocValue
    reads d
  {
    DocValue(d.title, d.description, d.parameters, d.result, d.enumValues)
  }

  function Snapshots(ps: seq<Doc>): (r: seq<DocValue>)
    reads ps
    ensures |r| == |ps| && forall i :: 0 <= i < |ps| ==> r[i] == Snapshot(ps[i])
  {
    seq(|ps|, i reads ps requires 0 <= i < |ps| => Snapshot(ps[i]))
  }

  /** Line 179: a member is described with interface inference and definition
      extraction on, inside a non-global structure. */
  function DescribeMember(p: DocValue, structTitle: string, env: Env): Result<Described> {
    Describe(p.title, p.description, p.parameters, p.result, p.enumValues, structTitle, false, Options(true, true), env)
  }

  function MemberDescriber(structTitle: string, env: Env): DocValue -> Result<Described> {
    p => DescribeMember(p, structTitle, env)
  }

  /** Lines 178-180: the members in order; the first one that throws ends the
      run. */
  function DescribeMembers(acc: seq<Described>, ps: seq<DocValue>, describe: DocValue -> Result<Described>): Result<seq<Described>>
    decreases |ps|
  {
    if ps == [] then Ok(acc)
    else
      var d :- describe(ps[0]);
      DescribeMembers(acc + [d], ps[1..], describe)
  }

  /** A successful run holds the described members after `acc`, one per
      member and in order. */
  lemma {:induction false} DescribeMembersOk(acc: seq<Described>, ps: seq<DocValue>, describe: DocValue -> Result<Described>)
    decreases |ps|
    ensures var r := DescribeMembers(acc, ps, describe);
      r.Ok? ==> |r.value| == |acc| + |ps| && r.value[..|acc|] == acc &&
                forall i :: 0 <= i < |ps| ==> describe(ps[i]) == Ok(r.value[|acc| + i])
  {
    if ps != [] && describe(ps[0]).Ok? {
      var d := describe(ps[0]).value;
      DescribeMembersOk(acc + [d], ps[1..], describe);
      var r := DescribeMembers(acc + [d], ps[1..], describe);
      assert r.Ok? ==> r.value[..|acc|] == (acc + [d])[..|acc|];
      assert r.Ok? ==> forall i :: 1 <= i < |ps| ==> ps[i] == ps[1..][i - 1] && r.value[|acc| + i] == r.value[|acc + [d]| + (i - 1)];
    }
  }

  /** The run fails exactly when some member fails, with the error of the
      first failing member. */
  lemma {:induction false} DescribeMembersFails(acc: seq<Described>, ps: seq<DocValue>, describe: DocValue -> Result<Described>)
    decreases |ps|
    ensures (forall i :: 0 <= i < |ps| ==> describe(ps[i]).Ok?) ==> DescribeMembers(acc, ps, describe).Ok?
    ensures DescribeMembers(acc, ps, describe).Err? ==>
      exists i :: (0 <= i < |ps| && describe(ps[i]) == Err(DescribeMembers(acc, ps, describe).error) &&
                   forall j :: 0 <= j < i ==> describe(ps[j]).Ok?)
  {
    if ps != [] {
      var m := describe(ps[0]);
      if m.Ok? {
        var tail := ps[1..];
        DescribeMembersFails(acc + [m.value], tail, describe);
        assert DescribeMembers(acc, ps, describe) == DescribeMembers(acc + [m.value], tail, describe);
        assert forall i :: 1 <= i < |ps| ==> ps[i] == tail[i - 1];
        var r := DescribeMembers(acc, ps, describe);
        if r.Err? {
          var i :| 0 <= i < |tail| && describe(tail[i]) == Err(r.error) &&
            forall j :: 0 <= j < i ==> describe(tail[j]).Ok?;
          assert describe(ps[i + 1]) == Err(r.error);
          forall j | 0 <= j < i + 1 ensures describe(ps[j]).Ok? {
            if j > 0 {
              assert ps[j] == tail[j - 1];
            }
          }
        }
      }
    }
  }

  function IfaceOf(d: Described): seq<Interface> {
    if d.inferred.Some? then [d.inferred.value.iface] else []
  }

  /** The interfaces the members push, in order. */
  function Interfaces(ds: seq<Described>): seq<Interface> {
    if ds == [] then [] else Interfaces(ds[..|ds| - 1]) + IfaceOf(ds[|ds| - 1])
  }

  /** Appending a member appends its interface, after whatever `pre` was
      already collected. */
  lemma InterfacesSnoc(pre: seq<Interface>, ds: seq<Described>, d: Described)
    ensures pre + Interfaces(ds + [d]) == pre + Interfaces(ds) + IfaceOf(d)
  {
    assert (ds + [d])[..|ds|] == ds;
    assert pre + (Interfaces(ds) + IfaceOf(d)) == pre + Interfaces(ds) + IfaceOf(d);
  }

  function Texts(ds: seq<Described>): (r: seq<string>)
    ensures |r| == |ds| && forall i :: 0 <= i < |ds| ==> r[i] == ds[i].text
  {
    seq(|ds|, i requires 0 <= i < |ds| => ds[i].text)
  }

  function DeclarationHead(title: string, isClass: bool): string {
    if isClass then "declare class " + title + " {\n" else "declare var " + title + ": {\n"
  }

  /** Appending keeps a prefix; used to show where each emitted block opens. */
  lemma StartsWithConcat(a: string, b: string, p: string)
    requires StartsWith(a, p)
    ensures StartsWith(a + b, p)
  {
    assert (a + b)[..|p|] == a[..|p|];
  }

  /** Prepending keeps a suffix; used to show where each emitted block closes. */
  lemma EndsWithConcat(a: string, b: string, p: string)
    requires EndsWith(b, p)
    ensures EndsWith(a + b, p)
  {
    assert (a + b)[|a + b| - |p|..] == b[|b| - |p|..];
  }

  /** Lines 177-183: the members joined by blank lines, every line indented by
      a tab, between the declaration head and `}`. */
  function Declaration(title: string, isClass: bool, texts: seq<string>): (r: string)
    ensures StartsWith(r, DeclarationHead(title, isClass))
    ensures EndsWith(r, "\n}\n")
    ensures exists body :: (r == DeclarationHead(title, isClass) + body + "\n}\n" &&
                            StripLinePrefix(body, "\t") == Some(Join("\n\n", texts)))
  {
    var head := DeclarationHead(title, isClass);
    var body := PrefixLines(Join("\n\n", texts), "\t");
    PrefixLinesRoundTrip(Join("\n\n", texts), "\t");
    StartsWithConcat(head, body + "\n}\n", head);
    assert head + body + "\n}\n" == head + (body + "\n}\n");
    EndsWithConcat(head + body, "\n}\n", "\n}\n");
    head + body + "\n}\n"
  }

  function InterfaceDeclarations(ifaces: seq<Interface>): seq<string> {
    seq(|ifaces|, i requires 0 <= i < |ifaces| => "declare interface " + ifaces[i].name + " " + ifaces[i].content)
  }

  /** Lines 186-190: one `declare interface` per collected interface, indented
      by a tab, inside `declare namespace T { … }` and followed by a blank line. */
  function Namespace(title: string, ifaces: seq<Interface>): (r: string)
    ensures StartsWith(r, "declare namespace " + title + " {\n")
    ensures EndsWith(r, "\n}\n\n")
    ensures exists body :: (r == "declare namespace " + title + " {\n" + body + "\n}\n\n" &&
                            StripLinePrefix(body, "\t") == Some(Join("\n", InterfaceDeclarations(ifaces))))
  {
    var head := "declare namespace " + title + " {\n";
    var body := PrefixLines(Join("\n", InterfaceDeclarations(ifaces)), "\t");
    PrefixLinesRoundTrip(Join("\n", InterfaceDeclarations(ifaces)), "\t");
    StartsWithConcat(head, body + "\n}\n\n", head);
    assert head + body + "\n}\n\n" == head + (body + "\n}\n\n");
    EndsWithConcat(head + body, "\n}\n\n", "\n}\n\n");
    head + body + "\n}\n\n"
  }

  /** What the emitter produces for one structure: its text, the structure's
      own description result and its members' results. */
  datatype Emitted = Emitted(text: string, head: Described, members: seq<Described>)

  /** Lines 170-193, given the structure's own description result `head` and
      the way each member is described. */
  function Emit(title: string, isClass: bool, isGlobal: bool, head: Result<Described>, props: seq<DocValue>,
                interfaces: seq<Interface>, describe: DocValue -> Result<Described>): (r: Result<Emitted>)
    ensures head.Err? ==> r == Err(head.error)
    ensures r.Ok? ==> head == Ok(r.value.head)
    ensures head.Ok? && isGlobal ==> r == Ok(Emitted(head.value.text, head.value, []))
    ensures head.Ok? && !isGlobal ==>
      (r.Ok? <==> DescribeMembers([], props, describe).Ok?) &&
      (r.Ok? ==> DescribeMembers([], props, describe) == Ok(r.value.members))
    ensures r.Ok? && !isGlobal ==> |r.value.members| == |props| && EndsWith(r.value.text, "\n}\n")
    ensures r.Ok? && !isGlobal && interfaces + Interfaces(r.value.members) == [] ==>
      r.value.text == r.value.head.text + Declaration(title, isClass, Texts(r.value.members))
    ensures r.Ok? && !isGlobal && interfaces + Interfaces(r.value.members) != [] ==>
      StartsWith(r.value.text, "declare namespace " + title + " {\n") &&
      r.value.text == Namespace(title, interfaces + Interfaces(r.value.members)) +
                      r.value.head.text + Declaration(title, isClass, Texts(r.value.members))
  {
    var h :- head;
    if isGlobal then Ok(Emitted(h.text, h, []))
    else
      var members :- DescribeMembers([], props, describe);
      DescribeMembersOk([], props, describe);
      var decl := Declaration(title, isClass, Texts(members));
      var ifaces := interfaces + Interfaces(members);
      EndsWithConcat(h.text, decl, "\n}\n");
      if ifaces != [] then
        var ns := Namespace(title, ifaces);
        EndsWithConcat(ns, h.text + decl, "\n}\n");
        StartsWithConcat(ns, h.text + decl, "declare namespace " + title + " {\n");
        assert ns + h.text + decl == ns + (h.text + decl);
        Ok(Emitted(ns + h.text + decl, h, members))
      else
        Ok(Emitted(h.text + decl, h, members))
  }

  /** Line 172: the structure itself is described without interface inference,
      and with definition extraction only when it is the global one. */
  function DescribeStructure(s: DocValue, isGlobal: bool, env: Env): (r: Result<Described>)
    ensures r.Ok? ==> StartsWith(r.value.text, "/**\n") && r.value.inferred.None?
    ensures !isGlobal && r.Ok? ==>
      r.value.description == s.description && r.value.parameters == s.parameters && !r.value.warned
    ensures isGlobal && FirstDefinition(s.description, s.title).None? ==> r.Err?
  {
    Describe(s.title, s.description, s.parameters, s.result, s.enumValues, s.title, isGlobal,
             Options(false, isGlobal), env)
  }

  /** The emitter as a function of a structure's contents. */
  function EmitDoc(s: DocValue, isClass: bool, isGlobal: bool, props: seq<DocValue>, interfaces: seq<Interface>,
                   env: Env): (r: Result<Emitted>)
    ensures r.Ok? ==> r.value.head.inferred.None?
    ensures r.Ok? && !isGlobal && interfaces + Interfaces(r.value.members) == [] ==>
      StartsWith(r.value.text, "/**\n")
  {
    var r := Emit(s.title, isClass, isGlobal, DescribeStructure(s, isGlobal, env), props, interfaces,
                  MemberDescriber(s.title, env));
    if r.Ok? && !isGlobal && interfaces + Interfaces(r.value.members) == [] then
      StartsWithConcat(r.value.head.text, Declaration(s.title, isClass, Texts(r.value.members)), "/**\n");
      r
    else r
  }

  lemma DescribeMembersStep(acc: seq<Described>, ps: seq<DocValue>, describe: DocValue -> Result<Described>)
    requires ps != []
    ensures DescribeMembers(acc, ps, describe) ==
      if describe(ps[0]).Err? then Err(describe(ps[0]).error)
      else DescribeMembers(acc + [describe(ps[0]).value], ps[1..], describe)
  {
  }

  /** Each member object carries the description and parameters of its
      described result. */
  ghost predicate Carries(props: seq<Doc>, members: seq<Described>)
    reads props
  {
    |members| == |props| &&
    forall i :: 0 <= i < |props| ==>
      props[i].description == members[i].description && props[i].parameters == members[i].parameters
  }

  /** `describe` is the member describer of the structure titled `t`. The
      trigger keeps the definition of `DescribeMember` out of every proof that
      only passes `describe` along. */
  ghost predicate Describes(describe: DocValue -> Result<Described>, t: string, env: Env) {
    forall v {:trigger DescribeMember(v, t, env)} :: describe(v) == DescribeMember(v, t, env)
  }

  lemma MemberDescriberDescribes(t: string, env: Env)
    ensures Describes(MemberDescriber(t, env), t, env)
  {
  }

  /** No member object occurs twice in the list. */
  ghost predicate NoRepeats(ps: seq<Doc>)
    decreases |ps|
  {
    ps == [] || (ps[0] !in ps[1..] && NoRepeats(ps[1..]))
  }

  /** In a list without repeats every other entry is a different object, so
      updating the member at `i` changes none of the others. */
  lemma {:induction false} NoRepeatsOthers(ps: seq<Doc>, i: nat)
    requires NoRepeats(ps) && i < |ps|
    decreases |ps|
    ensures forall j :: 0 <= j < |ps| && j != i ==> ps[j] != ps[i]
  {
    if i > 0 {
      NoRepeatsOthers(ps[1..], i - 1);
      assert forall j :: 1 <= j < |ps| ==> ps[j] == ps[1..][j - 1];
      assert ps[i] in ps[1..];
    } else {
      assert forall j :: 1 <= j < |ps| ==> ps[j] == ps[1..][j - 1];
    }
  }

  /** Line 179 for the member `p`, that is `props[i]`, of a non-global structure; the other
      members are left alone. */
  method DescribeAt(props: seq<Doc>, i: nat, p: Doc, structure: Doc, env: Env, ghost describe: DocValue -> Result<Described>)
    returns (r: Result<Described>)
    requires i < |props| && p == props[i] && forall j :: 0 <= j < |props| && j != i ==> props[j] != p
    requires !structure.isGlobal && Describes(describe, structure.title, env)
    modifies p`description, p`parameters, structure`interfaces
    ensures r == describe(old(Snapshot(p)))
    ensures r.Ok? ==> p.description == r.value.description && p.parameters == r.value.parameters
    ensures r.Ok? ==> structure.interfaces == old(structure.interfaces) + IfaceOf(r.value)
    ensures forall j :: 0 <= j < |props| && j != i ==>
      props[j].description == old(props[j].description) && props[j].parameters == old(props[j].parameters)
  {
    ghost var v := Snapshot(p);
    r := ProcessDescription(p, structure, Options(true, true), env);
    assert r == DescribeMember(v, structure.title, env);
    forall j | 0 <= j < |props| && j != i
      ensures props[j].description == old(props[j].description) && props[j].parameters == old(props[j].parameters)
    {
      assert props[j] != p;
    }
  }

  /** Lines 178-180 on the objects: every member is described in order and
      its interfaces go onto the structure. */
  method DescribeAll(props: seq<Doc>, structure: Doc, env: Env, ghost describe: DocValue -> Result<Described>)
    returns (r: Result<seq<Described>>)
    requires !structure.isGlobal && Describes(describe, structure.title, env)
    requires structure !in props
    requires NoRepeats(props)
    modifies (set p | p in props)`description, (set p | p in props)`parameters, structure`interfaces
    ensures r == DescribeMembers([], old(Snapshots(props)), describe)
    ensures r.Ok? ==> structure.interfaces == old(structure.interfaces) + Interfaces(r.value)
    ensures r.Ok? ==> Carries(props, r.value)
  {
    ghost var snaps := Snapshots(props);
    ghost var start := structure.interfaces;
    var ds: seq<Described> := [];
    var i := 0;
    while i < |props|
      invariant 0 <= i <= |props| && |ds| == i
      invariant DescribeMembers(ds, snaps[i..], describe) == DescribeMembers([], snaps, describe)
      invariant structure.interfaces == start + Interfaces(ds)
      invariant forall j :: 0 <= j < i ==>
        props[j].description == ds[j].description && props[j].parameters == ds[j].parameters
      invariant forall j :: i <= j < |props| ==>
        props[j].description == old(props[j].description) && props[j].parameters == old(props[j].parameters)
    {
      var p := props[i];
      assert Snapshot(p) == snaps[i];
      NoRepeatsOthers(props, i);
      var done := DescribeAt(props, i, p, structure, env, describe);
      assert snaps[i..][0] == snaps[i] && snaps[i..][1..] == snaps[i + 1..];
      DescribeMembersStep(ds, snaps[i..], describe);
      if done.Err? {
        return Err(done.error);
      }
      var d := done.value;
      InterfacesSnoc(start, ds, d);
      ds := ds + [d];
      i := i + 1;
    }
    assert snaps[i..] == [];
    r := Ok(ds);
  }

  /** Lines 173-193 once the structure's own description `head` is known:
      a failure ends the run, a global structure is its comment alone, and
      otherwise the members are described and the declaration is laid out. */
  method EmitRest(structure: Doc, head: Result<Described>, env: Env, ghost describe: DocValue -> Result<Described>)
    returns (r: Result<string>)
    requires Describes(describe, structure.title, env)
    requires structure !in structure.properties
    requires NoRepeats(structure.properties)
    modifies structure`interfaces
    modifies (set p | p in structure.properties)`description, (set p | p in structure.properties)`parameters
    ensures var e := Emit(old(structure.title), old(structure.isClass), old(structure.isGlobal), head,
                          old(Snapshots(structure.properties)), old(structure.interfaces), describe);
      (e.Err? ==> r == Err(e.error)) &&
      (e.Ok? ==> r == Ok(e.value.text) &&
                 structure.interfaces == old(structure.interfaces) + Interfaces(e.value.members) &&
                 (!old(structure.isGlobal) ==> Carries(structure.properties, e.value.members)))
  {
    var props := structure.properties;
    ghost var e := Emit(structure.title, structure.isClass, structure.isGlobal, head, Snapshots(props),
                        structure.interfaces, describe);
    if head.Err? {
      return Err(head.error);
    }
    if structure.isGlobal {
      return Ok(head.value.text);
    }
    var members := DescribeAll(props, structure, env, describe);
    if members.Err? {
      return Err(members.error);
    }
    var decl := Declaration(structure.title, structure.isClass, Texts(members.value));
    var text := head.value.text + decl;
    if |structure.interfaces| > 0 {
      text := Namespace(structure.title, structure.interfaces) + head.value.text + decl;
    }
    assert e == Ok(Emitted(text, head.value, members.value));
    r := Ok(text);
  }

  /** Two describers that agree on every member describe the members alike. */
  lemma {:induction false} DescribeMembersAgree(acc: seq<Described>, ps: seq<DocValue>,
                                                d1: DocValue -> Result<Described>, d2: DocValue -> Result<Described>)
    requires forall i :: 0 <= i < |ps| ==> d1(ps[i]) == d2(ps[i])
    decreases |ps|
    ensures DescribeMembers(acc, ps, d1) == DescribeMembers(acc, ps, d2)
  {
    if ps != [] {
      assert d1(ps[0]) == d2(ps[0]);
      if d1(ps[0]).Ok? {
        assert forall i :: 0 <= i < |ps[1..]| ==> ps[1..][i] == ps[i + 1];
        DescribeMembersAgree(acc + [d1(ps[0]).value], ps[1..], d1, d2);
      }
    }
  }

  /** The emitter with any describer of the structure's members is the
      emitter of the structure's contents. */
  lemma EmitDocAgrees(s: DocValue, isClass: bool, isGlobal: bool, props: seq<DocValue>, interfaces: seq<Interface>,
                      env: Env, describe: DocValue -> Result<Described>)
    requires Describes(describe, s.title, env)
    ensures EmitDoc(s, isClass, isGlobal, props, interfaces, env) ==
            Emit(s.title, isClass, isGlobal, DescribeStructure(s, isGlobal, env), props, interfaces, describe)
  {
    var m := MemberDescriber(s.title, env);
    forall i | 0 <= i < |props| ensures describe(props[i]) == m(props[i]) {
      assert describe(props[i]) == DescribeMember(props[i], s.title, env);
    }
    DescribeMembersAgree([], props, describe, m);
  }

  /** Line 172: the structure's own description; it pushes no interface. */
  method DescribeHead(structure: Doc, env: Env) returns (r: Result<Described>)
    requires structure !in structure.properties
    modifies structure`description, structure`parameters, structure`interfaces
    ensures r == DescribeStructure(old(Snapshot(structure)), old(structure.isGlobal), env)
    ensures r.Ok? ==> structure.description == r.value.description && structure.parameters == r.value.parameters
    ensures r.Ok? ==> structure.interfaces == old(structure.interfaces)
    ensures Snapshots(structure.properties) == old(Snapshots(structure.properties))
  {
    ghost var s := Snapshot(structure);
    r := ProcessDescription(structure, structure, Options(false, structure.isGlobal), env);
    assert r == DescribeStructure(s, structure.isGlobal, env);
  }

  /** The emitter body for one structure (lines 170-193), `describe` being
      its member describer. On success the structure and each member carry
      their processed descriptions and parameters, and the interfaces of the
      members follow the structure's existing ones. */
  method EmitStructure(structure: Doc, env: Env, ghost describe: DocValue -> Result<Described>)
    returns (r: Result<string>)
    requires Describes(describe, structure.title, env)
    requires structure !in structure.properties
    requires NoRepeats(structure.properties)
    modifies structure`description, structure`parameters, structure`interfaces
    modifies (set p | p in structure.properties)`description, (set p | p in structure.properties)`parameters
    ensures var e := Emit(old(structure.title), old(structure.isClass), old(structure.isGlobal),
                          DescribeStructure(old(Snapshot(structure)), old(structure.isGlobal), env),
                          old(Snapshots(structure.properties)), old(structure.interfaces), describe);
      (e.Err? ==> r == Err(e.error)) &&
      (e.Ok? ==> r == Ok(e.value.text) &&
                 structure.interfaces == old(structure.interfaces) + Interfaces(e.value.members) &&
                 (!old(structure.isGlobal) ==> Carries(structure.properties, e.value.members)))
  {
    var head := DescribeHead(structure, env);
    r := EmitRest(structure, head, env, describe);
  }
}
