/**
 * The node tree of dbusapi/ast.py, without its XML reader.
 *
 * The Python classes `Node`, `Interface`, `Property`, `Method`, `Signal`,
 * `Argument` and `Annotation` share the fields and the child bookkeeping
 * of `BaseNode`; here they are one class `AstNode` whose constant `kind`
 * says which Python class an object stands for.  The per-kind ordered
 * dictionaries (`annotations`, `interfaces`, `nodes`, `methods`, `signals`,
 * `properties`) and the `arguments` list are one map `containers` from the
 * child kind to the children of that kind in insertion order; an ordered
 * dictionary keyed by child name is the sequence of its values, whose
 * names are distinct because a duplicate name is never inserted.
 *
 * Functions over the parent chain or the child lists take a set `U` of
 * the nodes involved: the recursion descends through `U`, so a chain or a
 * tree that closes a cycle inside `U` is outside their precondition.
 */
module Ast {
  import opened Wrappers
  import opened Types
  import opened SignatureParser
  import opened DiagnosticLog
  import opened AstNames

  /** The concrete node classes. */
  datatype Kind = NodeKind | InterfaceKind | PropertyKind | MethodKind | SignalKind | ArgumentKind | AnnotationKind

  /** `type(x).__name__.lower()` */
  function KindName(k: Kind): string {
    match k
    case NodeKind => "node"
    case InterfaceKind => "interface"
    case PropertyKind => "property"
    case MethodKind => "method"
    case SignalKind => "signal"
    case ArgumentKind => "argument"
    case AnnotationKind => "annotation"
  }

  /** `Method` and `Signal`, the subclasses of `Callable`. */
  predicate IsCallable(k: Kind) {
    k == MethodKind || k == SignalKind
  }

  /** The kinds whose `pretty_name` is `_dotted_name`. */
  predicate IsDotted(k: Kind) {
    k == PropertyKind || IsCallable(k)
  }

  /** The keys of `_type_containers` for each class. */
  function ContainedKinds(k: Kind): set<Kind> {
    match k
    case NodeKind => {AnnotationKind, InterfaceKind, NodeKind}
    case InterfaceKind => {AnnotationKind, MethodKind, SignalKind, PropertyKind}
    case MethodKind => {AnnotationKind, ArgumentKind}
    case SignalKind => {AnnotationKind, ArgumentKind}
    case _ => {AnnotationKind}
  }

  function EmptyContainers(k: Kind): map<Kind, seq<AstNode>> {
    map c | c in ContainedKinds(k) :: []
  }

  // ---------------------------------------------------------------------
  // Text formatting.
  // ---------------------------------------------------------------------

  /** A name between the typographic quotes U+2018 and U+2019. */
  function Quoted(s: string): string {
    "\U{2018}" + s + "\U{2019}"
  }

  /** `'%s' % x` for a name that may be `None`. */
  function Str(o: Option<string>): string {
    if o.Some? then o.value else "None"
  }

  predicate IsDigit(c: char) {
    '0' <= c <= '9'
  }

  function DigitChar(d: nat): char
    requires d < 10
  {
    "0123456789"[d]
  }

  /** `'%u' % n` for a non-negative `n`: its decimal digits. */
  function NatToString(n: nat): (r: string)
    ensures |r| >= 1 && forall i :: 0 <= i < |r| ==> IsDigit(r[i])
    ensures n < 10 <==> |r| == 1
    decreases n
  {
    if n < 10 then [DigitChar(n)] else NatToString(n / 10) + [DigitChar(n % 10)]
  }

  /** The number a string of decimal digits denotes. */
  function DecimalValue(s: string): nat
    requires forall i :: 0 <= i < |s| ==> IsDigit(s[i])
  {
    if s == [] then 0
    else
      assert IsDigit(s[|s| - 1]);
      DecimalValue(s[..|s| - 1]) * 10 + (s[|s| - 1] as int - '0' as int)
  }

  /** The decimal text of an index reads back as that index, so distinct
      indices give distinct argument names. */
  lemma {:induction false} NatToStringRoundTrip(n: nat)
    ensures DecimalValue(NatToString(n)) == n
    decreases n
  {
    var r := NatToString(n);
    if n >= 10 {
      NatToStringRoundTrip(n / 10);
      assert r[..|r| - 1] == NatToString(n / 10);
    }
  }

  // ---------------------------------------------------------------------
  // The issues the tree logs, as (code, message) pairs.
  // ---------------------------------------------------------------------

  const MissingNodeName: Diagnostic :=
    Diagnostic("missing-attribute", "Missing required attribute " + Quoted("name") + " in non-root node.")

  function NodeNameProblem(name: string): Diagnostic {
    Diagnostic("node-name", "Non-root node name is not a relative object path " + Quoted(name) + ".")
  }

  function InvalidInterfaceName(name: string): Diagnostic {
    Diagnostic("interface-name", "Invalid interface name " + Quoted(name) + ".")
  }

  /** `Invalid method name ‘%s’.` or `Invalid signal name ‘%s’.` */
  function InvalidMemberName(k: Kind, name: string): Diagnostic
    requires IsCallable(k)
  {
    if k == MethodKind then Diagnostic("method-name", "Invalid method name " + Quoted(name) + ".")
    else Diagnostic("signal-name", "Invalid signal name " + Quoted(name) + ".")
  }

  /** `'duplicate-%s' % type(child).__name__.lower()` */
  function DuplicateCode(k: Kind): string {
    match k
    case NodeKind => "duplicate-node"
    case InterfaceKind => "duplicate-interface"
    case PropertyKind => "duplicate-property"
    case MethodKind => "duplicate-method"
    case SignalKind => "duplicate-signal"
    case ArgumentKind => "duplicate-argument"
    case AnnotationKind => "duplicate-annotation"
  }

  /** The entry a log with domain `domain` records for `d`. */
  function Entry(domain: string, d: Diagnostic): Issue {
    Issue(None, domain, d.code, d.message)
  }

  /** The entries a log with domain `domain` records for `ds`, in order. */
  function Entries(domain: string, ds: seq<Diagnostic>): seq<Issue> {
    if ds == [] then [] else [Entry(domain, ds[0])] + Entries(domain, ds[1..])
  }

  /** What `Node._add_child` logs about a child node's name before the
      insertion proper: nothing unless both parent and child are nodes. */
  function NameProblems(parentKind: Kind, child: AstNode): seq<Diagnostic> {
    if parentKind == NodeKind && child.kind == NodeKind then
      if child.name.None? || child.name.value == "" then [MissingNodeName]
      else if !IsValidRelativeObjectPath(child.name.value) then [NodeNameProblem(child.name.value)]
      else []
    else []
  }

  /** Every code of `ds` is registered in `codes`. */
  predicate Registered(ds: seq<Diagnostic>, codes: set<string>) {
    ds == [] || (ds[0].code in codes && Registered(ds[1..], codes))
  }

  /** Whether some node of `cs` has the name `name`. */
  predicate NameTaken(cs: seq<AstNode>, name: Option<string>) {
    cs != [] && (cs[0].name == name || NameTaken(cs[1..], name))
  }

  /** The first node of `cs` named `name`, if any (a dictionary lookup). */
  function FindNamed(cs: seq<AstNode>, name: Option<string>): (r: Option<AstNode>)
    ensures r.Some? <==> NameTaken(cs, name)
    ensures r.Some? ==> r.value in cs && r.value.name == name
  {
    if cs == [] then None
    else if cs[0].name == name then Some(cs[0])
    else FindNamed(cs[1..], name)
  }

  /** `list.index`: the position of the first occurrence of `x`. */
  function FirstIndex(cs: seq<AstNode>, x: AstNode): (r: nat)
    requires x in cs
    ensures r < |cs| && cs[r] == x
    ensures forall j :: 0 <= j < r ==> cs[j] != x
  {
    if cs[0] == x then 0 else 1 + FirstIndex(cs[1..], x)
  }

  /** Appending to a list moves no existing element's first position. */
  lemma {:induction false} FirstIndexAppend(cs: seq<AstNode>, y: AstNode, x: AstNode)
    requires x in cs
    ensures FirstIndex(cs + [y], x) == FirstIndex(cs, x)
  {
    if cs[0] != x {
      assert (cs + [y])[1..] == cs[1..] + [y];
      FirstIndexAppend(cs[1..], y, x);
    }
  }

  /** An element appended to a list it is not yet in lands at the end. */
  lemma FirstIndexOfAppended(cs: seq<AstNode>, x: AstNode)
    requires x !in cs
    ensures FirstIndex(cs + [x], x) == |cs|
  {
    var r := FirstIndex(cs + [x], x);
    if r < |cs| {
      assert cs[r] == x;
    }
  }

  class AstNode {
    const kind: Kind
    /** `None` only for an unnamed node or argument. */
    const name: Option<string>
    const log: Log
    /** `Property.type` and `Argument.type`: what the signature parser made
        of the type string.  `None` for the other kinds, which have no type. */
    const typeSignature: Option<TypeSignature>
    /** `Property.access`; empty for the other kinds. */
    const access: string
    /** `Argument.direction`; empty for the other kinds. */
    const direction: string
    /** `Annotation.value`; `None` for the other kinds. */
    const annotationValue: Option<string>
    /** `_comment`, the setter's target. */
    var comment: Option<string>
    var children: seq<AstNode>
    var parent: AstNode?
    /** Set by `Node._add_child`; absent (here `null`) until then. */
    var node: AstNode?
    /** Set by `Interface._add_child`. */
    var interface: AstNode?
    /** `_type_containers`, by child kind. */
    var containers: map<Kind, seq<AstNode>>
    /** `Argument._index`, with `None` standing for the sentinel -1. */
    var cachedIndex: Option<nat>

    /** The kinds the constructors always give a name. */
    predicate Named() {
      kind == NodeKind || kind == ArgumentKind || name.Some?
    }

    /** The container map has exactly the keys of this class. */
    predicate Valid()
      reads this`containers
    {
      containers.Keys == ContainedKinds(kind)
    }

    /** The state every constructor leaves: no parent, no children, empty containers. */
    predicate Detached()
      reads this
    {
      children == [] && parent == null && node == null && interface == null &&
      containers == EmptyContainers(kind) && cachedIndex == None && comment == None &&
      Valid() && Named()
    }

    constructor Node(name: Option<string>, log: Log)
      ensures kind == NodeKind && this.name == name && this.log == log
      ensures typeSignature == None && Detached()
    {
      kind, this.name, this.log := NodeKind, name, log;
      typeSignature, access, direction, annotationValue := None, "", "", None;
      comment, children, parent, node, interface := None, [], null, null, null;
      containers, cachedIndex := EmptyContainers(NodeKind), None;
    }

    /** Logs `interface-name` for a non-empty name that is not a valid
        interface name; the object is built either way. */
    constructor Interface(name: string, log: Log)
      requires name != "" && !IsValidInterfaceName(name) ==> "interface-name" in log.issueCodes
      modifies log`issues
      ensures kind == InterfaceKind && this.name == Some(name) && this.log == log
      ensures typeSignature == None && Detached()
      ensures log.issues == old(log.issues) +
        if name != "" && !IsValidInterfaceName(name) then Entries(log.domain, [InvalidInterfaceName(name)]) else []
    {
      kind, this.name, this.log := InterfaceKind, Some(name), log;
      typeSignature, access, direction, annotationValue := None, "", "", None;
      comment, children, parent, node, interface := None, [], null, null, null;
      containers, cachedIndex := EmptyContainers(InterfaceKind), None;
      new;
      if name != "" && !IsValidInterfaceName(name) {
        var d := InvalidInterfaceName(name);
        log.LogIssue(d.code, d.message);
      }
    }

    /** The type string goes through a fresh signature parser. */
    constructor Property(name: string, typeString: string, access: string, log: Log)
      ensures kind == PropertyKind && this.name == Some(name) && this.log == log && this.access == access
      ensures typeSignature == ParseSignature(typeString) && Detached()
    {
      var parser := new TypeParser(typeString);
      var sig := parser.Parse();
      kind, this.name, this.log := PropertyKind, Some(name), log;
      typeSignature, this.access, direction, annotationValue := sig, access, "", None;
      comment, children, parent, node, interface := None, [], null, null, null;
      containers, cachedIndex := EmptyContainers(PropertyKind), None;
    }

    /** Logs `method-name` for a non-empty name that is not a valid member name. */
    constructor Method(name: string, log: Log)
      requires name != "" && !IsValidMemberName(name) ==> "method-name" in log.issueCodes
      modifies log`issues
      ensures kind == MethodKind && this.name == Some(name) && this.log == log
      ensures typeSignature == None && Detached()
      ensures log.issues == old(log.issues) +
        if name != "" && !IsValidMemberName(name) then Entries(log.domain, [InvalidMemberName(MethodKind, name)]) else []
    {
      kind, this.name, this.log := MethodKind, Some(name), log;
      typeSignature, access, direction, annotationValue := None, "", "", None;
      comment, children, parent, node, interface := None, [], null, null, null;
      containers, cachedIndex := EmptyContainers(MethodKind), None;
      new;
      if name != "" && !IsValidMemberName(name) {
        var d := InvalidMemberName(MethodKind, name);
        log.LogIssue(d.code, d.message);
      }
    }

    /** Logs `signal-name` for a non-empty name that is not a valid member name. */
    constructor Signal(name: string, log: Log)
      requires name != "" && !IsValidMemberName(name) ==> "signal-name" in log.issueCodes
      modifies log`issues
      ensures kind == SignalKind && this.name == Some(name) && this.log == log
      ensures typeSignature == None && Detached()
      ensures log.issues == old(log.issues) +
        if name != "" && !IsValidMemberName(name) then Entries(log.domain, [InvalidMemberName(SignalKind, name)]) else []
    {
      kind, this.name, this.log := SignalKind, Some(name), log;
      typeSignature, access, direction, annotationValue := None, "", "", None;
      comment, children, parent, node, interface := None, [], null, null, null;
      containers, cachedIndex := EmptyContainers(SignalKind), None;
      new;
      if name != "" && !IsValidMemberName(name) {
        var d := InvalidMemberName(SignalKind, name);
        log.LogIssue(d.code, d.message);
      }
    }

    /** A missing or empty direction means `in`. */
    constructor Argument(name: Option<string>, direction: Option<string>, typeString: string, log: Log)
      ensures kind == ArgumentKind && this.name == name && this.log == log
      ensures this.direction == if direction.Some? && direction.value != "" then direction.value else "in"
      ensures typeSignature == ParseSignature(typeString) && Detached()
    {
      var parser := new TypeParser(typeString);
      var sig := parser.Parse();
      kind, this.name, this.log := ArgumentKind, name, log;
      typeSignature, access, annotationValue := sig, "", None;
      this.direction := if direction.Some? && direction.value != "" then direction.value else "in";
      comment, children, parent, node, interface := None, [], null, null, null;
      containers, cachedIndex := EmptyContainers(ArgumentKind), None;
    }

    constructor Annotation(name: string, value: Option<string>, log: Log)
      ensures kind == AnnotationKind && this.name == Some(name) && this.log == log
      ensures annotationValue == value && typeSignature == None && Detached()
    {
      kind, this.name, this.log := AnnotationKind, Some(name), log;
      typeSignature, access, direction, annotationValue := None, "", "", value;
      comment, children, parent, node, interface := None, [], null, null, null;
      containers, cachedIndex := EmptyContainers(AnnotationKind), None;
    }

    /** `_child_is_duplicate`: a callable never refuses an argument;
        otherwise the name is looked up among the children of its kind. */
    predicate IsDuplicate(child: AstNode)
      requires child.kind in containers
      reads this`containers
    {
      !(IsCallable(kind) && child.kind == ArgumentKind) && NameTaken(containers[child.kind], child.name)
    }

    /**
     * `add_child`, that is `_add_child` with the `Node` and `Interface`
     * overrides.
     *
     * Under a node, a child node's missing or invalid name is logged first
     * and the child's `node` is set; under an interface the child's
     * `interface` is set.  Then `BaseAddChild` sets `parent` and either
     * refuses a duplicate or inserts the child.
     */
    method AddChild(child: AstNode, U: set<AstNode>) returns (added: bool)
      requires Valid() && child.kind in containers
      requires Registered(NameProblems(kind, child), log.issueCodes)
      requires IsDuplicate(child) ==> DuplicateCode(child.kind) in log.issueCodes
      requires IsDuplicate(child) ==> child.Named() && child in U && ChainOK(this, U - {child})
      modifies this`children, this`containers, child`parent, child`node, child`interface, log`issues
      ensures Valid()
      ensures added == !old(IsDuplicate(child))
      ensures child.parent == this
      ensures child.node == if kind == NodeKind then this else old(child.node)
      ensures child.interface == if kind == InterfaceKind then this else old(child.interface)
      ensures added ==>
        children == old(children) + [child] &&
        containers == old(containers)[child.kind := old(containers[child.kind]) + [child]]
      ensures !added ==> children == old(children) && containers == old(containers)
      ensures !added ==> ChainOK(child, U)
      ensures log.issues == old(log.issues) + Entries(log.domain, NameProblems(kind, child)) +
        if added then [] else [Entry(log.domain, DuplicateProblem(child, U))]
      ensures added && old(TreeOK(this, U)) && old(TreeOK(child, U - {this})) ==>
        TreeOK(this, U) && Walk(this, U) == old(Walk(this, U)) + [child] + Walk(child, U - {this})
    {
      Override(child);
      added := BaseAddChild(child, U);
    }

    /** What the `Node` and `Interface` overrides of `_add_child` do before
        calling the base version: a node checks the name of a child node
        and sets the child's `node`, an interface sets the child's `interface`. */
    method Override(child: AstNode)
      requires Registered(NameProblems(kind, child), log.issueCodes)
      modifies child`node, child`interface, log`issues
      ensures child.node == if kind == NodeKind then this else old(child.node)
      ensures child.interface == if kind == InterfaceKind then this else old(child.interface)
      ensures log.issues == old(log.issues) + Entries(log.domain, NameProblems(kind, child))
    {
      if kind == NodeKind {
        if child.kind == NodeKind {
          if child.name.None? || child.name.value == "" {
            log.LogIssue(MissingNodeName.code, MissingNodeName.message);
          } else if !IsValidRelativeObjectPath(child.name.value) {
            var d := NodeNameProblem(child.name.value);
            log.LogIssue(d.code, d.message);
          }
        }
        child.node := this;
      }
      if kind == InterfaceKind {
        child.interface := this;
      }
    }

    /**
     * `BaseNode._add_child`.  The child's `parent` is set even when it
     * turns out to be a duplicate: a duplicate logs one `duplicate-<kind>`
     * issue, naming the child by its new pretty name, and is neither listed
     * nor contained; any other child is appended to `children` and to its
     * kind's container, and the walk of this node then ends with the child
     * and the child's own walk.
     */
    method BaseAddChild(child: AstNode, U: set<AstNode>) returns (added: bool)
      requires Valid() && child.kind in containers
      requires IsDuplicate(child) ==> DuplicateCode(child.kind) in log.issueCodes
      requires IsDuplicate(child) ==> child.Named() && child in U && ChainOK(this, U - {child})
      modifies this`children, this`containers, child`parent, log`issues
      ensures Valid()
      ensures added == !old(IsDuplicate(child))
      ensures child.parent == this
      ensures added ==>
        children == old(children) + [child] &&
        containers == old(containers)[child.kind := old(containers[child.kind]) + [child]] &&
        log.issues == old(log.issues)
      ensures !added ==>
        children == old(children) && containers == old(containers) && ChainOK(child, U) &&
        log.issues == old(log.issues) + [Entry(log.domain, DuplicateProblem(child, U))]
      ensures added && old(TreeOK(this, U)) && old(TreeOK(child, U - {this})) ==>
        TreeOK(this, U) && Walk(this, U) == old(Walk(this, U)) + [child] + Walk(child, U - {this})
    {
      ghost var wasTree := TreeOK(this, U) && TreeOK(child, U - {this});
      ghost var oldChildren := children;
      child.parent := this;
      if IsDuplicate(child) {
        ChainAfterReparent(child, U);
        var d := DuplicateProblem(child, U);
        log.LogIssue(d.code, d.message);
        return false;
      }
      children := children + [child];
      containers := containers[child.kind := containers[child.kind] + [child]];
      if wasTree {
        WalkAllAppend(oldChildren, child, U - {this});
      }
      return true;
    }

    /**
     * `Argument.index`: the cached position if there is one, -1 without a
     * parent, and otherwise the first position in the parent's argument
     * list, which is then cached.  Afterwards the cache holds the result.
     */
    method Index() returns (r: int)
      requires parent != null && cachedIndex.None? ==> this in Arguments(parent)
      modifies this`cachedIndex
      ensures r == old(ArgumentIndex(this, Around(this)))
      ensures cachedIndex == if r < 0 then None else Some(r as nat)
    {
      if cachedIndex.Some? {
        return cachedIndex.value;
      }
      if parent == null {
        return -1;
      }
      var i := FirstIndex(Arguments(parent), this);
      cachedIndex := Some(i);
      return i;
    }

    /** The `comment` getter: the value of an `org.gtk.GDBus.DocString`
        annotation when there is one, otherwise the stored comment. */
    function Comment(): (r: Option<string>)
      reads this`containers, this`comment
      ensures AnnotationKind in containers && NameTaken(containers[AnnotationKind], Some(DocStringAnnotation)) ==>
        exists a :: a in containers[AnnotationKind] && a.name == Some(DocStringAnnotation) && r == a.annotationValue
      ensures !(AnnotationKind in containers && NameTaken(containers[AnnotationKind], Some(DocStringAnnotation))) ==>
        r == comment
    {
      var doc := if AnnotationKind in containers then FindNamed(containers[AnnotationKind], Some(DocStringAnnotation)) else None;
      if doc.Some? then doc.value.annotationValue else comment
    }
  }

  const DocStringAnnotation: string := "org.gtk.GDBus.DocString"

  /** A method or signal takes every argument offered: the argument is never
      a duplicate, so `AddChild` appends it, and it lands at the end of the
      argument list, where `index` will find it. */
  lemma ArgumentAlwaysAppended(p: AstNode, a: AstNode)
    requires p.Valid() && IsCallable(p.kind) && a.kind == ArgumentKind && a !in Arguments(p)
    ensures a.kind in p.containers && !p.IsDuplicate(a)
    ensures FirstIndex(Arguments(p) + [a], a) == |Arguments(p)|
  {
    FirstIndexOfAppended(Arguments(p), a);
  }

  lemma {:induction false} EntriesAppend(domain: string, a: seq<Diagnostic>, b: seq<Diagnostic>)
    ensures Entries(domain, a + b) == Entries(domain, a) + Entries(domain, b)
  {
    if a == [] {
      assert a + b == b;
    } else {
      assert (a + b)[1..] == a[1..] + b;
      EntriesAppend(domain, a[1..], b);
    }
  }

  /** The node itself and its parent, if any. */
  function Around(n: AstNode): set<AstNode>
    reads n`parent
  {
    if n.parent == null then {n} else {n, n.parent}
  }

  /** `parent.arguments`: the argument container, empty for a parent without one. */
  function Arguments(p: AstNode): seq<AstNode>
    reads p`containers
  {
    if ArgumentKind in p.containers then p.containers[ArgumentKind] else []
  }

  /** The value of `Argument.index` without its caching side effect. */
  function ArgumentIndex(n: AstNode, U: set<AstNode>): (r: int)
    requires n in U && (n.parent != null ==> n.parent in U)
    requires n.parent != null && n.cachedIndex.None? ==> n in Arguments(n.parent)
    reads U`parent, U`containers, U`cachedIndex
    ensures r >= -1
  {
    if n.cachedIndex.Some? then n.cachedIndex.value
    else if n.parent == null then -1
    else FirstIndex(Arguments(n.parent), n)
  }

  /** A cache entry that agrees with the parent's argument list. */
  predicate CacheAgrees(n: AstNode)
    reads n`cachedIndex, n`parent, if n.parent == null then {} else {n.parent}
  {
    n.cachedIndex.Some? ==>
      n.parent != null && n in Arguments(n.parent) && n.cachedIndex.value == FirstIndex(Arguments(n.parent), n)
  }

  /** With an agreeing cache, `index` is the position in the parent's
      argument list, or -1 without a parent. */
  lemma ArgumentIndexIsPosition(n: AstNode, U: set<AstNode>)
    requires n in U && (n.parent != null ==> n.parent in U)
    requires n.parent != null ==> n in Arguments(n.parent)
    requires CacheAgrees(n)
    ensures ArgumentIndex(n, U) == if n.parent == null then -1 else FirstIndex(Arguments(n.parent), n)
  {
  }

  /**
   * The parent chain from `n` lies in `U` without repeating a node, every
   * node on it has the name its kind requires, and `pretty_name` raises
   * nowhere on it: no property, method or signal hangs under an unnamed
   * node (whose pretty name `None` cannot be concatenated), and an
   * uncached argument is in its parent's argument list.
   */
  predicate ChainOK(n: AstNode, U: set<AstNode>)
    reads U`parent, U`containers, U`cachedIndex
    decreases U
  {
    n in U && n.Named() &&
    (n.parent != null ==>
      n.parent in U - {n} && ChainOK(n.parent, U - {n}) &&
      (IsDotted(n.kind) ==> !(n.parent.kind == NodeKind && n.parent.name.None?)) &&
      (n.kind == ArgumentKind && n.cachedIndex.None? ==> n in Arguments(n.parent)))
  }

  /** The part of an argument's pretty name that names the argument itself:
      its index, its quoted name, both, or `unnamed`. */
  function ArgumentOwnName(index: int, name: Option<string>): string
    requires index >= -1
  {
    if index == -1 && name.None? then "unnamed"
    else if index == -1 then Quoted(name.value)
    else if name.None? then NatToString(index)
    else NatToString(index) + " (" + Quoted(name.value) + ")"
  }

  /** `pretty_name` (and `format_name`), for each kind. */
  function PrettyName(n: AstNode, U: set<AstNode>): (r: Option<string>)
    requires ChainOK(n, U)
    reads U`parent, U`containers, U`cachedIndex
    ensures r.None? <==> n.kind == NodeKind && n.name.None?
    decreases U
  {
    match n.kind
    case NodeKind => n.name
    case InterfaceKind => n.name
    case AnnotationKind =>
      if n.parent == null then n.name
      else Some(n.name.value + " of " + Quoted(Str(PrettyName(n.parent, U - {n}))))
    case ArgumentKind =>
      var own := ArgumentOwnName(ArgumentIndex(n, U), n.name);
      if n.parent == null then Some(own)
      else Some(own + " of " + KindName(n.parent.kind) + " " + Quoted(Str(PrettyName(n.parent, U - {n}))))
    case _ =>
      if n.parent == null then n.name
      else Some(PrettyName(n.parent, U - {n}).value + "." + n.name.value)
  }

  /** A duplicate child, just hung under its new parent, has a parent chain
      on which `pretty_name` is defined: a duplicate is never an argument,
      and a property, method or signal can only sit under an interface. */
  lemma ChainAfterReparent(child: AstNode, U: set<AstNode>)
    requires child.parent != null && child.parent.Valid() && child.kind in child.parent.containers
    requires child.parent.IsDuplicate(child)
    requires child.Named() && child in U && ChainOK(child.parent, U - {child})
    ensures ChainOK(child, U)
  {
  }

  /** Without a parent, every kind but an argument is named by its own name. */
  lemma RootName(n: AstNode, U: set<AstNode>)
    requires n in U && n.Named() && n.parent == null && n.kind != ArgumentKind
    ensures ChainOK(n, U) && PrettyName(n, U) == n.name
  {
  }

  /** A parentless argument without a cached index is `unnamed` or its quoted name. */
  lemma RootArgumentName(n: AstNode, U: set<AstNode>)
    requires n in U && n.kind == ArgumentKind && n.parent == null && n.cachedIndex.None?
    ensures ChainOK(n, U)
    ensures PrettyName(n, U) == Some(if n.name.None? then "unnamed" else Quoted(n.name.value))
  {
  }

  /** `_dotted_name`: a property, method or signal of an interface is named
      by the interface's name, a dot and its own name. */
  lemma MemberUnderInterface(n: AstNode, U: set<AstNode>)
    requires n in U && IsDotted(n.kind) && n.name.Some?
    requires n.parent != null && n.parent.kind == InterfaceKind && ChainOK(n.parent, U - {n})
    ensures ChainOK(n, U)
    ensures PrettyName(n, U) == Some(n.parent.name.value + "." + n.name.value)
  {
  }

  /** An argument in its parent's argument list is named by its position
      there, its name if it has one, and the kind and name of its parent. */
  lemma ArgumentUnderParent(a: AstNode, U: set<AstNode>)
    requires a in U && a.kind == ArgumentKind && a.parent != null
    requires a in Arguments(a.parent) && CacheAgrees(a) && ChainOK(a.parent, U - {a})
    ensures ChainOK(a, U)
    ensures PrettyName(a, U) == Some(ArgumentOwnName(FirstIndex(Arguments(a.parent), a), a.name) +
      " of " + KindName(a.parent.kind) + " " + Quoted(Str(PrettyName(a.parent, U - {a}))))
  {
    ArgumentIndexIsPosition(a, U);
  }

  /** An annotation with a parent is named by its own name and the quoted
      pretty name of its parent. */
  lemma AnnotationUnderParent(a: AstNode, U: set<AstNode>)
    requires a in U && a.kind == AnnotationKind && a.name.Some?
    requires a.parent != null && ChainOK(a.parent, U - {a})
    ensures ChainOK(a, U)
    ensures PrettyName(a, U) == Some(a.name.value + " of " + Quoted(Str(PrettyName(a.parent, U - {a}))))
  {
  }

  /** The issue `_add_child` logs for a duplicate child. */
  function DuplicateProblem(child: AstNode, U: set<AstNode>): Diagnostic
    requires ChainOK(child, U)
    reads U`parent, U`containers, U`cachedIndex
  {
    Diagnostic(DuplicateCode(child.kind),
      "Duplicate " + KindName(child.kind) + " definition " + Quoted(Str(PrettyName(child, U))) + ".")
  }

  // ---------------------------------------------------------------------
  // `walk`: the descendants in pre-order.
  // ---------------------------------------------------------------------

  /** The tree below `n` lies in `U` and no node is its own descendant. */
  predicate TreeOK(n: AstNode, U: set<AstNode>)
    reads U`children
    decreases U, 0, 0
  {
    n in U && AllTreeOK(n.children, U - {n})
  }

  predicate AllTreeOK(cs: seq<AstNode>, V: set<AstNode>)
    reads V`children
    decreases V, 1, |cs|
  {
    cs == [] || (TreeOK(cs[0], V) && AllTreeOK(cs[1..], V))
  }

  /** `walk()`: each child, followed by that child's own walk. */
  function Walk(n: AstNode, U: set<AstNode>): seq<AstNode>
    requires TreeOK(n, U)
    reads U`children
    decreases U, 0, 0
  {
    WalkAll(n.children, U - {n})
  }

  function WalkAll(cs: seq<AstNode>, V: set<AstNode>): seq<AstNode>
    requires AllTreeOK(cs, V)
    reads V`children
    decreases V, 1, |cs|
  {
    if cs == [] then [] else [cs[0]] + Walk(cs[0], V) + WalkAll(cs[1..], V)
  }

  /** Walking one more child appends that child and its walk. */
  lemma {:induction false} WalkAllAppend(cs: seq<AstNode>, c: AstNode, V: set<AstNode>)
    requires AllTreeOK(cs, V) && TreeOK(c, V)
    ensures AllTreeOK(cs + [c], V)
    ensures WalkAll(cs + [c], V) == WalkAll(cs, V) + [c] + Walk(c, V)
    decreases |cs|
  {
    if cs == [] {
      assert cs + [c] == [c];
      assert [c][1..] == [];
    } else {
      assert (cs + [c])[1..] == cs[1..] + [c];
      WalkAllAppend(cs[1..], c, V);
    }
  }

  /** `x` descends from `n` within `U`: it is a child of `n`, or descends
      from such a child among the nodes of `U` other than `n`. */
  ghost predicate Below(x: AstNode, n: AstNode, U: set<AstNode>)
    reads U`children
    decreases U
  {
    n in U && exists c :: c in n.children && c in U - {n} && (c == x || Below(x, c, U - {n}))
  }

  /** The walk yields exactly the descendants of `n`. */
  lemma {:induction false} WalkIsDescendants(n: AstNode, U: set<AstNode>)
    requires TreeOK(n, U)
    ensures forall x :: x in Walk(n, U) <==> Below(x, n, U)
    decreases U, 0, 0
  {
    WalkAllIsDescendants(n.children, U - {n});
  }

  /** Walking a list of children yields exactly those children and their descendants. */
  lemma {:induction false} WalkAllIsDescendants(cs: seq<AstNode>, V: set<AstNode>)
    requires AllTreeOK(cs, V)
    ensures forall x :: x in WalkAll(cs, V) <==> exists c :: c in cs && c in V && (c == x || Below(x, c, V))
    decreases V, 1, |cs|
  {
    if cs != [] {
      WalkIsDescendants(cs[0], V);
      WalkAllIsDescendants(cs[1..], V);
      forall x ensures x in WalkAll(cs, V) <==> exists c :: c in cs && c in V && (c == x || Below(x, c, V)) {
        if exists c :: c in cs && c in V && (c == x || Below(x, c, V)) {
          var c :| c in cs && c in V && (c == x || Below(x, c, V));
          if c != cs[0] {
            assert c in cs[1..];
          }
        }
      }
    }
  }

  /** Every node the walk yields is a node of `U` other than `n`: the walk
      never yields the node it starts from. */
  lemma {:induction false} WalkStaysBelow(n: AstNode, U: set<AstNode>)
    requires TreeOK(n, U)
    ensures forall x :: x in Walk(n, U) ==> x in U - {n}
    decreases U, 0, 0
  {
    WalkAllStaysIn(n.children, U - {n});
  }

  lemma {:induction false} WalkAllStaysIn(cs: seq<AstNode>, V: set<AstNode>)
    requires AllTreeOK(cs, V)
    ensures forall x :: x in WalkAll(cs, V) ==> x in V
    decreases V, 1, |cs|
  {
    if cs != [] {
      WalkStaysBelow(cs[0], V);
      WalkAllStaysIn(cs[1..], V);
    }
  }
}
