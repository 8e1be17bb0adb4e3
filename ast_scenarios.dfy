/**
 * A selection of the expectations of the AST test suite, on small trees.
 *
 * The lemmas take nodes whose fields have the values a test gives them and
 * state the pretty names, duplicate messages, indices and walks the test
 * expects; `Quoted(x)` stands for the text x between the quotes U+2018 and
 * U+2019.  The methods build such trees from fresh nodes with the
 * constructors and `AddChild`, as the tests do, and return what the tests
 * inspect.
 */
module AstScenarios {
  import opened Wrappers
  import opened Types
  import opened SignatureParser
  import opened SignatureLaws
  import opened DiagnosticLog
  import opened AstNames
  import opened Ast

  // ---------------------------------------------------------------------
  // Pretty names.
  // ---------------------------------------------------------------------

  /** A property is `AProperty` alone and `Some.Interface.AProperty` in its interface. */
  lemma PropertyNameExample(prop: AstNode, iface: AstNode)
    requires prop.kind == PropertyKind && prop.name == Some("AProperty")
    requires iface.kind == InterfaceKind && iface.name == Some("Some.Interface") && iface.parent == null
    ensures prop.parent == null ==> ChainOK(prop, {prop}) && PrettyName(prop, {prop}) == Some("AProperty")
    ensures prop.parent == iface ==>
      ChainOK(prop, {iface, prop}) && PrettyName(prop, {iface, prop}) == Some("Some.Interface.AProperty")
  {
    if prop.parent == null {
      RootName(prop, {prop});
    }
    if prop.parent == iface {
      RootName(iface, {iface});
      assert {iface, prop} - {prop} == {iface};
      MemberUnderInterface(prop, {iface, prop});
      assert iface.name.value + "." + prop.name.value == "Some.Interface.AProperty";
    }
  }

  /** Methods and signals are named the same way. */
  lemma CallableNameExample(c: AstNode, iface: AstNode)
    requires IsCallable(c.kind) && c.name == Some("AMethod") && c.parent == iface
    requires iface.kind == InterfaceKind && iface.name == Some("Some.Interface") && iface.parent == null
    ensures ChainOK(c, {iface, c}) && PrettyName(c, {iface, c}) == Some("Some.Interface.AMethod")
  {
    RootName(iface, {iface});
    assert {iface, c} - {c} == {iface};
    MemberUnderInterface(c, {iface, c});
    assert iface.name.value + "." + c.name.value == "Some.Interface.AMethod";
  }

  /** An argument without a parent: its quoted name, or `unnamed`. */
  lemma LoneArgumentExample(arg: AstNode)
    requires arg.kind == ArgumentKind && arg.parent == null && arg.cachedIndex.None?
    requires arg.name == Some("self") || arg.name == None
    ensures ChainOK(arg, {arg})
    ensures PrettyName(arg, {arg}) == Some(if arg.name.Some? then Quoted("self") else "unnamed")
  {
    RootArgumentName(arg, {arg});
  }

  /** The first argument of `ParentMethod`, named `self`. */
  lemma NamedMethodArgumentExample(arg: AstNode, m: AstNode)
    requires arg.kind == ArgumentKind && arg.name == Some("self") && arg.cachedIndex.None? && arg.parent == m
    requires m.kind == MethodKind && m.name == Some("ParentMethod") && m.parent == null && Arguments(m) == [arg]
    ensures ChainOK(arg, {m, arg})
    ensures PrettyName(arg, {m, arg}) == Some("0 (" + Quoted("self") + ") of method " + Quoted("ParentMethod"))
  {
    RootName(m, {m});
    assert {m, arg} - {arg} == {m};
    ArgumentUnderParent(arg, {m, arg});
    var own := ArgumentOwnName(0, arg.name);
    assert own == "0 (" + Quoted("self") + ")" by {
      assert NatToString(0) + " (" == "0 (";
    }
    assert own + " of " + KindName(m.kind) + " " + Quoted(Str(m.name)) ==
      "0 (" + Quoted("self") + ") of method " + Quoted("ParentMethod");
  }

  /** The first argument of `ParentMethod`, without a name. */
  lemma UnnamedMethodArgumentExample(arg: AstNode, m: AstNode)
    requires arg.kind == ArgumentKind && arg.name.None? && arg.cachedIndex.None? && arg.parent == m
    requires m.kind == MethodKind && m.name == Some("ParentMethod") && m.parent == null && Arguments(m) == [arg]
    ensures ChainOK(arg, {m, arg})
    ensures PrettyName(arg, {m, arg}) == Some("0 of method " + Quoted("ParentMethod"))
  {
    RootName(m, {m});
    assert {m, arg} - {arg} == {m};
    ArgumentUnderParent(arg, {m, arg});
    var own := ArgumentOwnName(0, arg.name);
    assert own == "0";
    assert own + " of " + KindName(m.kind) + " " + Quoted(Str(m.name)) == "0 of method " + Quoted("ParentMethod");
  }

  /** An annotation of an interface: `SomeAnnotation of ‘Some.Interface’`. */
  lemma InterfaceAnnotationExample(a: AstNode, iface: AstNode)
    requires a.kind == AnnotationKind && a.name == Some("SomeAnnotation") && a.parent == iface
    requires iface.kind == InterfaceKind && iface.name == Some("Some.Interface") && iface.parent == null
    ensures ChainOK(a, {iface, a})
    ensures PrettyName(a, {iface, a}) == Some("SomeAnnotation of " + Quoted("Some.Interface"))
  {
    RootName(iface, {iface});
    assert {iface, a} - {a} == {iface};
    AnnotationUnderParent(a, {iface, a});
    assert a.name.value + " of " + Quoted(Str(iface.name)) == "SomeAnnotation of " + Quoted("Some.Interface");
  }

  /** The first argument of `Some.Interface.AMethod`, named `Argument`. */
  lemma InterfaceMethodArgumentExample(arg: AstNode, m: AstNode, iface: AstNode)
    requires arg.kind == ArgumentKind && arg.name == Some("Argument") && arg.cachedIndex.None? && arg.parent == m
    requires m.kind == MethodKind && m.name == Some("AMethod") && m.parent == iface && Arguments(m) == [arg]
    requires iface.kind == InterfaceKind && iface.name == Some("Some.Interface") && iface.parent == null
    ensures ChainOK(arg, {iface, m, arg})
    ensures PrettyName(arg, {iface, m, arg}) ==
      Some("0 (" + Quoted("Argument") + ") of method " + Quoted("Some.Interface.AMethod"))
  {
    var U := {iface, m, arg};
    assert U - {arg} - {m} == {iface};
    CallableNameExample(m, iface);
    assert U - {arg} == {iface, m};
    ArgumentUnderParent(arg, U);
    var own := ArgumentOwnName(0, arg.name);
    assert own == "0 (" + Quoted("Argument") + ")" by {
      assert NatToString(0) + " (" == "0 (";
    }
    assert own + " of " + KindName(m.kind) + " " + Quoted(Str(Some("Some.Interface.AMethod"))) ==
      "0 (" + Quoted("Argument") + ") of method " + Quoted("Some.Interface.AMethod");
  }

  /** An annotation of that argument names the whole chain. */
  lemma ArgumentAnnotationExample(a: AstNode, arg: AstNode, m: AstNode, iface: AstNode)
    requires a.kind == AnnotationKind && a.name == Some("SomeAnnotation") && a.parent == arg
    requires arg.kind == ArgumentKind && arg.name == Some("Argument") && arg.cachedIndex.None? && arg.parent == m
    requires m.kind == MethodKind && m.name == Some("AMethod") && m.parent == iface && Arguments(m) == [arg]
    requires iface.kind == InterfaceKind && iface.name == Some("Some.Interface") && iface.parent == null
    ensures ChainOK(a, {iface, m, arg, a})
    ensures PrettyName(a, {iface, m, arg, a}) ==
      Some("SomeAnnotation of " + Quoted("0 (" + Quoted("Argument") + ") of method " + Quoted("Some.Interface.AMethod")))
  {
    var U := {iface, m, arg, a};
    assert U - {a} == {iface, m, arg};
    InterfaceMethodArgumentExample(arg, m, iface);
    AnnotationUnderParent(a, U);
    var argName := "0 (" + Quoted("Argument") + ") of method " + Quoted("Some.Interface.AMethod");
    assert a.name.value + " of " + Quoted(Str(Some(argName))) == "SomeAnnotation of " + Quoted(argName);
  }

  /** An annotation of a property, method or signal of `Some.Interface`
      names the member by its dotted name. */
  lemma MemberAnnotationExample(a: AstNode, mem: AstNode, iface: AstNode)
    requires a.kind == AnnotationKind && a.name == Some("SomeAnnotation") && a.parent == mem
    requires IsDotted(mem.kind) && mem.name.Some? && mem.parent == iface
    requires iface.kind == InterfaceKind && iface.name == Some("Some.Interface") && iface.parent == null
    ensures ChainOK(a, {iface, mem, a})
    ensures PrettyName(a, {iface, mem, a}) ==
      Some("SomeAnnotation of " + Quoted("Some.Interface." + mem.name.value))
  {
    var dotted := "Some.Interface." + mem.name.value;
    RootName(iface, {iface});
    assert {iface, mem} - {mem} == {iface};
    MemberUnderInterface(mem, {iface, mem});
    assert iface.name.value + "." + mem.name.value == dotted;
    assert Str(PrettyName(mem, {iface, mem})) == dotted;
    assert {iface, mem, a} - {a} == {iface, mem};
    AnnotationUnderParent(a, {iface, mem, a});
    assert a.name.value + " of " + Quoted(dotted) == "SomeAnnotation of " + Quoted(dotted);
  }

  // ---------------------------------------------------------------------
  // Duplicates, indices and walks.
  // ---------------------------------------------------------------------

  /** The issue a second `AMethod` of `Some.Interface` logs. */
  lemma DuplicateMethodExample(again: AstNode, iface: AstNode)
    requires again.kind == MethodKind && again.name == Some("AMethod") && again.parent == iface
    requires iface.kind == InterfaceKind && iface.name == Some("Some.Interface") && iface.parent == null
    ensures ChainOK(again, {iface, again})
    ensures DuplicateProblem(again, {iface, again}) ==
      Diagnostic("duplicate-method", "Duplicate method definition " + Quoted("Some.Interface.AMethod") + ".")
  {
    CallableNameExample(again, iface);
    assert "Duplicate " + KindName(again.kind) + " definition " == "Duplicate method definition ";
  }

  /** `index` of the arguments of a method holding two: 0 and 1. */
  lemma ArgumentIndexExample(arg0: AstNode, arg1: AstNode, m: AstNode)
    requires arg0 != arg1 && arg0.parent == m && arg1.parent == m && m != arg0 && m != arg1
    requires arg0.cachedIndex.None? && arg1.cachedIndex.None? && Arguments(m) == [arg0, arg1]
    ensures ArgumentIndex(arg0, {arg0, m}) == 0 && ArgumentIndex(arg1, {arg1, m}) == 1
  {
    assert [arg0, arg1][1..] == [arg1];
  }

  /** An interface holding a method that holds an annotation walks to the
      method, then the annotation. */
  lemma WalkExample(iface: AstNode, m: AstNode, a: AstNode)
    requires iface != m && iface != a && m != a
    requires iface.children == [m] && m.children == [a] && a.children == []
    ensures TreeOK(iface, {iface, m, a}) && Walk(iface, {iface, m, a}) == [m, a]
  {
    var U := {iface, m, a};
    assert U - {iface} == {m, a} && {m, a} - {m} == {a};
    assert [m][1..] == [] && [a][1..] == [];
    assert TreeOK(a, {a}) && Walk(a, {a}) == [];
    assert AllTreeOK([a], {a}) && WalkAll([a], {a}) == [a];
    assert TreeOK(m, {m, a}) && Walk(m, {m, a}) == [a];
    assert AllTreeOK([m], {m, a}) && WalkAll([m], {m, a}) == [m, a];
  }

  // ---------------------------------------------------------------------
  // Trees built from fresh nodes.
  // ---------------------------------------------------------------------

  /** A log in the `ast` domain: what the nodes expect of the `AstLog` they
      fall back on.  Each scenario registers the codes it needs. */
  method NewAstLog() returns (log: Log)
    ensures fresh(log) && log.issues == [] && log.issueCodes == {} && log.domain == "ast"
  {
    log := new Log();
    log.domain := "ast";
  }

  /** A property added to an interface: it learns its interface and keeps
      the parsed type `s`, which renders back as `s`. */
  method PropertyScenario() returns (added: bool, linked: bool, rendered: string)
    ensures added && linked && rendered == "s"
  {
    RenderAllOne(String);
    AcceptedCase(TypeSignature([String]), "s");
    InterfaceNameExamples();
    var log := NewAstLog();
    var prop := new AstNode.Property("AProperty", "s", "read", log);
    var iface := new AstNode.Interface("Some.Interface", log);
    added := iface.AddChild(prop, {iface, prop});
    linked := prop.interface == iface && prop.parent == iface && iface.children == [prop];
    rendered := RenderSignature(prop.typeSignature.value);
  }

  /** A method takes an annotation, which learns its parent; the method
      has no interface until an interface takes it. */
  method MethodParentingScenario() returns (annotated: bool, unlinked: bool, linked: bool)
    ensures annotated && unlinked && linked
  {
    MemberNameExamples();
    var log := NewAstLog();
    var a := new AstNode.Annotation("SomeAnnotation", Some("value"), log);
    var c := new AstNode.Method("AMethod", log);
    var added := c.AddChild(a, {c, a});
    annotated := a.parent == c;
    unlinked := c.interface == null;
    assert annotated && unlinked;
    InterfaceNameExamples();
    var iface := new AstNode.Interface("Some.Interface", log);
    added := iface.AddChild(c, {iface, c});
    linked := c.interface == iface && a.parent == c;
  }

  /** A signal takes an annotation, which learns its parent; the signal
      has no interface until an interface takes it. */
  method SignalParentingScenario() returns (annotated: bool, unlinked: bool, linked: bool)
    ensures annotated && unlinked && linked
  {
    MemberNameExamples();
    var log := NewAstLog();
    var a := new AstNode.Annotation("SomeAnnotation", Some("value"), log);
    var c := new AstNode.Signal("ASignal", log);
    var added := c.AddChild(a, {c, a});
    annotated := a.parent == c;
    unlinked := c.interface == null;
    assert annotated && unlinked;
    InterfaceNameExamples();
    var iface := new AstNode.Interface("Some.Interface", log);
    added := iface.AddChild(c, {iface, c});
    linked := c.interface == iface && a.parent == c;
  }

  /** An argument keeps the parsed type `s`, which renders back as `s`. */
  method ArgumentTypeScenario() returns (rendered: string)
    ensures rendered == "s"
  {
    RenderAllOne(String);
    AcceptedCase(TypeSignature([String]), "s");
    var log := NewAstLog();
    var arg := new AstNode.Argument(Some("self"), Some("in"), "s", log);
    rendered := RenderSignature(arg.typeSignature.value);
  }

  /** A second `AMethod` is refused and one `duplicate-method` issue is logged. */
  method DuplicateMethodScenario() returns (first: bool, second: bool, issues: seq<Issue>)
    ensures first && !second
    ensures issues == [Issue(None, "ast", "duplicate-method",
      "Duplicate method definition " + Quoted("Some.Interface.AMethod") + ".")]
  {
    InterfaceNameExamples();
    MemberNameExamples();
    var log := NewAstLog();
    log.RegisterIssueCode("duplicate-method");
    var m := new AstNode.Method("AMethod", log);
    var iface := new AstNode.Interface("Some.Interface", log);
    assert log.issues == [];
    first := iface.AddChild(m, {iface, m});
    assert log.issues == [] && iface.containers[MethodKind] == [m] && iface.parent == null;
    var again := new AstNode.Method("AMethod", log);
    assert log.issues == [];
    second := iface.AddChild(again, {iface, again});
    DuplicateMethodExample(again, iface);
    issues := log.issues;
  }

  /** `index` is -1 before the argument has a parent, and 0 once it is the
      first argument of a method. */
  method ArgumentIndexScenario() returns (before: int, after: int)
    ensures before == -1 && after == 0
  {
    MemberNameExamples();
    var log := NewAstLog();
    var arg := new AstNode.Argument(Some("SomeArgument"), Some("in"), "s", log);
    before := arg.Index();
    var m := new AstNode.Method("AMethod", log);
    var added := m.AddChild(arg, {m, arg});
    after := arg.Index();
  }

  /** Under a node, a child node without a name logs `missing-attribute`
      and is still added. */
  method UnnamedChildNodeScenario() returns (added: bool, issues: seq<Issue>)
    ensures added
    ensures issues == [Issue(None, "ast", "missing-attribute", "Missing required attribute " + Quoted("name") + " in non-root node.")]
  {
    var log := NewAstLog();
    log.RegisterIssueCode("missing-attribute");
    var root := new AstNode.Node(None, log);
    var child := new AstNode.Node(None, log);
    added := root.AddChild(child, {root, child});
    issues := log.issues;
  }

  /** A child node named by an absolute path logs `node-name`. */
  method AbsoluteChildNodeScenario() returns (added: bool, issues: seq<Issue>)
    ensures added
    ensures issues == [Issue(None, "ast", "node-name", "Non-root node name is not a relative object path " + Quoted("/abs/N") + ".")]
  {
    ObjectPathExamples();
    var log := NewAstLog();
    log.RegisterIssueCode("node-name");
    var root := new AstNode.Node(None, log);
    var child := new AstNode.Node(Some("/abs/N"), log);
    added := root.AddChild(child, {root, child});
    issues := log.issues;
  }

  /** An invalid interface name is logged as the interface is built. */
  method InvalidInterfaceNameScenario() returns (issues: seq<Issue>)
    ensures issues == [Issue(None, "ast", "interface-name", "Invalid interface name " + Quoted("0") + ".")]
  {
    InterfaceNameExamples();
    var log := NewAstLog();
    log.RegisterIssueCode("interface-name");
    var iface := new AstNode.Interface("0", log);
    issues := log.issues;
  }

  /** Invalid method and signal names are logged as the members are built. */
  method InvalidMemberNamesScenario() returns (issues: seq<Issue>)
    ensures issues == [
      Issue(None, "ast", "method-name", "Invalid method name " + Quoted("0M") + "."),
      Issue(None, "ast", "signal-name", "Invalid signal name " + Quoted("*S") + ".")]
  {
    MemberNameExamples();
    var log := NewAstLog();
    log.RegisterIssueCode("method-name");
    log.RegisterIssueCode("signal-name");
    var m := new AstNode.Method("0M", log);
    var s := new AstNode.Signal("*S", log);
    issues := log.issues;
  }
}
