/**
 * What the signature parser accepts and what it builds.
 *
 * `Spelling` is the text a type tree stands for, with no placeholders.  The
 * parser accepts exactly the spellings of shaped trees and returns that very
 * tree, and `str()` (`Render`) reproduces the spelling whenever every dict
 * entry has two members: hence `str(parse(s)) == s` for such inputs.
 */
module SignatureLaws {
  import opened Wrappers
  import opened Types
  import opened SignatureParser

  function Spelling(t: DBusType): string {
    match t
    case Array(ms) => "a" + SpellingAll(ms)
    case Struct(ms) => "(" + SpellingAll(ms) + ")"
    case DictEntry(ms) => "{" + SpellingAll(ms) + "}"
    case _ => [TypeCode(t)]
  }

  function SpellingAll(ts: seq<DBusType>): string {
    if ts == [] then "" else Spelling(ts[0]) + SpellingAll(ts[1..])
  }

  /** The character the parser dispatches on when it meets `t`. */
  function Lead(t: DBusType): char {
    match t
    case Array(_) => 'a'
    case Struct(_) => '('
    case DictEntry(_) => '{'
    case _ => TypeCode(t)
  }

  lemma SpellingStartsWithLead(t: DBusType)
    ensures |Spelling(t)| >= 1 && Spelling(t)[0] == Lead(t)
    ensures Lead(t) != ')' && Lead(t) != '}'
  {
  }

  lemma {:induction false} SpellingAllAppend(a: seq<DBusType>, b: seq<DBusType>)
    ensures SpellingAll(a + b) == SpellingAll(a) + SpellingAll(b)
  {
    if a == [] {
      assert a + b == b;
    } else {
      assert (a + b)[1..] == a[1..] + b;
      SpellingAllAppend(a[1..], b);
    }
  }

  lemma SpellingAllSingleton(t: DBusType)
    ensures SpellingAll([t]) == Spelling(t)
  {
    assert [t][1..] == [];
  }

  lemma SpellingAllCons(ms: seq<DBusType>)
    requires ms != []
    ensures SpellingAll(ms) == Spelling(ms[0]) + SpellingAll(ms[1..])
    ensures |SpellingAll(ms)| == |Spelling(ms[0])| + |SpellingAll(ms[1..])|
  {
  }

  lemma AllShapedAppend(a: seq<DBusType>, t: DBusType)
    requires AllShaped(a) && Shaped(t)
    ensures AllShaped(a + [t])
  {
    assert forall i :: 0 <= i < |a + [t]| ==> (a + [t])[i] == if i < |a| then a[i] else t;
  }

  // ---------------------------------------------------------------------
  // What the parser builds is shaped and spells what it consumed.

  lemma {:induction false} ParseOneSpelled(s: string, i: nat, c: char)
    requires i <= |s| && ParseOneAt(s, i, c).Parsed?
    ensures var r := ParseOneAt(s, i, c);
      Shaped(r.value) && Spelling(r.value) == [c] + s[i..r.next]
    decreases |s| - i, 1
  {
    var r := ParseOneAt(s, i, c);
    if BasicOfCode(c).Some? {
      var t := BasicOfCode(c).value;
      assert r == Parsed(t, i);
      assert Spelling(t) == [c];
      assert s[i..i] == [];
    } else if c == 'a' {
      var inner := ParseOneAt(s, i + 1, s[i]);
      ParseOneSpelled(s, i + 1, s[i]);
      assert r == Parsed(Array([inner.value]), inner.next);
      SpellingAllSingleton(inner.value);
      assert Spelling(Array([inner.value])) == "a" + Spelling(inner.value);
      SliceCons(s, i, inner.next);
      assert AllShaped([inner.value]);
    } else if c == '(' {
      assert r == ParseStructAt(s, i, []);
      ParseStructSpelled(s, i, []);
      ClosedSpelling(r.value, s[i..r.next], c, ')');
    } else {
      assert c == '{' && r == ParseDictAt(s, i, []);
      ParseDictSpelled(s, i, []);
      ClosedSpelling(r.value, s[i..r.next], c, '}');
    }
  }

  /** The spelling of a struct or dict entry from the text after its opening bracket. */
  lemma ClosedSpelling(t: DBusType, rest: string, open: char, close: char)
    requires t.Struct? || t.DictEntry?
    requires open == Lead(t) && close == (if t.Struct? then ')' else '}')
    requires SpellingAll(t.members) + [close] == SpellingAll([]) + rest
    ensures Spelling(t) == [open] + rest
  {
    assert SpellingAll([]) + rest == rest;
    assert Spelling(t) == [open] + (SpellingAll(t.members) + [close]);
  }

  /** `s[i..k]` split after its first character and again at `j`. */
  lemma SliceCons(s: string, i: nat, k: nat)
    requires i < k <= |s|
    ensures s[i..k] == [s[i]] + s[i + 1..k]
  {
  }

  lemma SliceSplit(s: string, i: nat, j: nat, k: nat)
    requires i <= j <= k <= |s|
    ensures s[i..k] == s[i..j] + s[j..k]
  {
  }

  lemma {:induction false} ParseStructSpelled(s: string, i: nat, acc: seq<DBusType>)
    requires i <= |s| && AllShaped(acc) && ParseStructAt(s, i, acc).Parsed?
    ensures var r := ParseStructAt(s, i, acc);
      r.value.Struct? && AllShaped(r.value.members) &&
      SpellingAll(r.value.members) + ")" == SpellingAll(acc) + s[i..r.next]
    decreases |s| - i, 0
  {
    var r := ParseStructAt(s, i, acc);
    if s[i] == ')' {
      assert s[i..r.next] == ")";
    } else {
      var o := ParseOneAt(s, i + 1, s[i]);
      var t, j := o.value, o.next;
      assert r == ParseStructAt(s, j, acc + [t]);
      ParseOneSpelled(s, i + 1, s[i]);
      AllShapedAppend(acc, t);
      ParseStructSpelled(s, j, acc + [t]);
      StepSpelling(s, i, j, r.next, acc, t);
    }
  }

  lemma {:induction false} ParseDictSpelled(s: string, i: nat, acc: seq<DBusType>)
    requires i <= |s| && AllShaped(acc) && |acc| <= 2 && ParseDictAt(s, i, acc).Parsed?
    ensures var r := ParseDictAt(s, i, acc);
      r.value.DictEntry? && |r.value.members| <= 2 && AllShaped(r.value.members) &&
      SpellingAll(r.value.members) + "}" == SpellingAll(acc) + s[i..r.next]
    decreases |s| - i, 0
  {
    var r := ParseDictAt(s, i, acc);
    if s[i] == '}' {
      assert s[i..r.next] == "}";
    } else {
      var o := ParseOneAt(s, i + 1, s[i]);
      var t, j := o.value, o.next;
      assert r == ParseDictAt(s, j, acc + [t]);
      ParseOneSpelled(s, i + 1, s[i]);
      AllShapedAppend(acc, t);
      ParseDictSpelled(s, j, acc + [t]);
      StepSpelling(s, i, j, r.next, acc, t);
    }
  }

  lemma {:induction false} ParseTopSpelled(s: string, i: nat, acc: seq<DBusType>)
    requires i <= |s| && AllShaped(acc) && ParseTopAt(s, i, acc).Parsed?
    ensures var r := ParseTopAt(s, i, acc);
      r.next == |s| && AllShaped(r.value.members) &&
      SpellingAll(r.value.members) == SpellingAll(acc) + s[i..]
    decreases |s| - i
  {
    var r := ParseTopAt(s, i, acc);
    if i == |s| {
      assert s[i..] == [];
    } else {
      var o := ParseOneAt(s, i + 1, s[i]);
      var t, j := o.value, o.next;
      assert r == ParseTopAt(s, j, acc + [t]);
      ParseOneSpelled(s, i + 1, s[i]);
      AllShapedAppend(acc, t);
      ParseTopSpelled(s, j, acc + [t]);
      StepSpelling(s, i, j, |s|, acc, t);
      assert s[i..] == s[i..|s|] && s[j..] == s[j..|s|];
    }
  }

  /** One member more: the text before `j` spells the members so far plus `t`. */
  lemma StepSpelling(s: string, i: nat, j: nat, n: nat, acc: seq<DBusType>, t: DBusType)
    requires i < j <= n <= |s|
    requires Spelling(t) == [s[i]] + s[i + 1..j]
    ensures SpellingAll(acc + [t]) + s[j..n] == SpellingAll(acc) + s[i..n]
  {
    SpellingAllAppend(acc, [t]);
    SpellingAllSingleton(t);
    SliceCons(s, i, j);
    SliceSplit(s, i, j, n);
    AppendAssociative(SpellingAll(acc), Spelling(t), s[j..n]);
  }

  lemma AppendAssociative(a: string, b: string, c: string)
    ensures a + b + c == a + (b + c)
  {
  }

  // ---------------------------------------------------------------------
  // The parser accepts the spelling of every shaped tree and rebuilds it,
  // whatever text follows.

  /** A slice that spells `x + y` splits into the two spellings. */
  lemma SliceOfConcat(s: string, a: nat, b: nat, x: string, y: string)
    requires a <= b <= |s| && s[a..b] == x + y
    ensures a + |x| <= b
    ensures s[a..a + |x|] == x && s[a + |x|..b] == y
  {
    assert s[a..a + |x|] == s[a..b][..|x|];
    assert s[a + |x|..b] == s[a..b][|x|..];
  }

  lemma {:induction false} ParseOneOfSpelling(t: DBusType, s: string, i: nat)
    requires Shaped(t)
    requires 1 <= i && i - 1 + |Spelling(t)| <= |s|
    requires s[i - 1..i - 1 + |Spelling(t)|] == Spelling(t)
    ensures ParseOneAt(s, i, s[i - 1]) == Parsed(t, i - 1 + |Spelling(t)|)
    decreases t, 1
  {
    SpellingStartsWithLead(t);
    assert s[i - 1] == s[i - 1..i - 1 + |Spelling(t)|][0];
    if t.Array? {
      ArrayOfSpelling(t, s, i);
    } else if t.Struct? {
      StructOfSpelling(t, s, i);
    } else if t.DictEntry? {
      DictOfSpelling(t, s, i);
    } else {
      BasicCodeRoundTrip(t);
    }
  }

  lemma {:induction false} ArrayOfSpelling(t: DBusType, s: string, i: nat)
    requires t.Array? && Shaped(t)
    requires 1 <= i && i - 1 + |Spelling(t)| <= |s|
    requires s[i - 1..i - 1 + |Spelling(t)|] == Spelling(t)
    ensures ParseOneAt(s, i, 'a') == Parsed(t, i - 1 + |Spelling(t)|)
    decreases t, 0
  {
    var m, n := t.members[0], i - 1 + |Spelling(t)|;
    assert t.members == [m];
    SpellingAllSingleton(m);
    assert Spelling(t) == "a" + Spelling(m);
    SliceOfConcat(s, i - 1, n, "a", Spelling(m));
    ParseOneOfSpelling(m, s, i + 1);
  }

  lemma {:induction false} StructOfSpelling(t: DBusType, s: string, i: nat)
    requires t.Struct? && Shaped(t)
    requires 1 <= i && i - 1 + |Spelling(t)| <= |s|
    requires s[i - 1..i - 1 + |Spelling(t)|] == Spelling(t)
    ensures ParseOneAt(s, i, '(') == Parsed(t, i - 1 + |Spelling(t)|)
    decreases t, 0
  {
    var ms, n := t.members, i - 1 + |Spelling(t)|;
    assert Spelling(t) == "(" + (SpellingAll(ms) + ")");
    SliceOfConcat(s, i - 1, n, "(", SpellingAll(ms) + ")");
    ParseStructOfSpelling(ms, [], s, i, n);
    assert [] + ms == ms;
  }

  lemma {:induction false} DictOfSpelling(t: DBusType, s: string, i: nat)
    requires t.DictEntry? && Shaped(t)
    requires 1 <= i && i - 1 + |Spelling(t)| <= |s|
    requires s[i - 1..i - 1 + |Spelling(t)|] == Spelling(t)
    ensures ParseOneAt(s, i, '{') == Parsed(t, i - 1 + |Spelling(t)|)
    decreases t, 0
  {
    var ms, n := t.members, i - 1 + |Spelling(t)|;
    assert Spelling(t) == "{" + (SpellingAll(ms) + "}");
    SliceOfConcat(s, i - 1, n, "{", SpellingAll(ms) + "}");
    ParseDictOfSpelling(ms, [], s, i, n);
    assert [] + ms == ms;
  }

  /** One turn of the struct loop after a member was parsed. */
  lemma StructStep(s: string, i: nat, acc: seq<DBusType>, t: DBusType, j: nat)
    requires i < |s| && s[i] != ')' && ParseOneAt(s, i + 1, s[i]) == Parsed(t, j)
    ensures ParseStructAt(s, i, acc) == ParseStructAt(s, j, acc + [t])
  {
  }

  /** One turn of the dict loop after a member was parsed. */
  lemma DictStep(s: string, i: nat, acc: seq<DBusType>, t: DBusType, j: nat)
    requires i < |s| && s[i] != '}' && ParseOneAt(s, i + 1, s[i]) == Parsed(t, j)
    ensures ParseDictAt(s, i, acc) ==
      if |acc| >= 2 then Failed(InvalidDict, j) else ParseDictAt(s, j, acc + [t])
  {
  }

  /** One turn of the top-level loop after a member was parsed. */
  lemma TopStep(s: string, i: nat, acc: seq<DBusType>, t: DBusType, j: nat)
    requires i < |s| && ParseOneAt(s, i + 1, s[i]) == Parsed(t, j)
    ensures ParseTopAt(s, i, acc) == ParseTopAt(s, j, acc + [t])
  {
  }

  /** The spelling of one shaped member at `i` is parsed as that member; its
      first character closes no bracket. */
  lemma MemberOfSpelling(s: string, i: nat, t: DBusType)
    requires Shaped(t) && i + |Spelling(t)| <= |s|
    requires s[i..i + |Spelling(t)|] == Spelling(t)
    ensures s[i] != ')' && s[i] != '}'
    ensures ParseOneAt(s, i + 1, s[i]) == Parsed(t, i + |Spelling(t)|)
    decreases t, 2
  {
    SpellingStartsWithLead(t);
    assert s[i] == s[i..i + |Spelling(t)|][0];
    ParseOneOfSpelling(t, s, i + 1);
  }

  /** Splits the spelling of a non-empty member list at the end of its first member. */
  lemma SplitFirstMember(s: string, i: nat, n: nat, ms: seq<DBusType>, tail: string)
    requires ms != [] && i <= n <= |s| && s[i..n] == SpellingAll(ms) + tail
    ensures i + |Spelling(ms[0])| <= n
    ensures s[i..i + |Spelling(ms[0])|] == Spelling(ms[0])
    ensures s[i + |Spelling(ms[0])|..n] == SpellingAll(ms[1..]) + tail
  {
    SpellingAllCons(ms);
    assert s[i..n] == Spelling(ms[0]) + (SpellingAll(ms[1..]) + tail);
    SliceOfConcat(s, i, n, Spelling(ms[0]), SpellingAll(ms[1..]) + tail);
  }

  lemma ConsAppend(acc: seq<DBusType>, ms: seq<DBusType>)
    requires ms != []
    ensures acc + [ms[0]] + ms[1..] == acc + ms
  {
  }

  lemma {:induction false} ParseStructOfSpelling(ms: seq<DBusType>, acc: seq<DBusType>, s: string, i: nat, n: nat)
    requires AllShaped(ms)
    requires i <= n <= |s| && s[i..n] == SpellingAll(ms) + ")"
    ensures ParseStructAt(s, i, acc) == Parsed(Struct(acc + ms), n)
    decreases ms, 0
  {
    if ms == [] {
      assert s[i..n] == ")";
      assert s[i] == ')';
      assert acc + ms == acc;
    } else {
      var m := ms[0];
      var j := i + |Spelling(m)|;
      SplitFirstMember(s, i, n, ms, ")");
      MemberOfSpelling(s, i, m);
      StructStep(s, i, acc, m, j);
      ParseStructOfSpelling(ms[1..], acc + [m], s, j, n);
      ConsAppend(acc, ms);
    }
  }

  lemma {:induction false} ParseDictOfSpelling(ms: seq<DBusType>, acc: seq<DBusType>, s: string, i: nat, n: nat)
    requires AllShaped(ms) && |acc| + |ms| <= 2
    requires i <= n <= |s| && s[i..n] == SpellingAll(ms) + "}"
    ensures ParseDictAt(s, i, acc) == Parsed(DictEntry(acc + ms), n)
    decreases ms, 0
  {
    if ms == [] {
      assert s[i..n] == "}";
      assert s[i] == '}';
      assert acc + ms == acc;
    } else {
      var m := ms[0];
      var j := i + |Spelling(m)|;
      SplitFirstMember(s, i, n, ms, "}");
      DictMemberStep(s, i, j, acc, m);
      ParseDictOfSpelling(ms[1..], acc + [m], s, j, n);
      ConsAppend(acc, ms);
    }
  }

  lemma {:induction false} ParseTopOfSpelling(ms: seq<DBusType>, acc: seq<DBusType>, s: string, i: nat)
    requires AllShaped(ms)
    requires i <= |s| && s[i..|s|] == SpellingAll(ms)
    ensures ParseTopAt(s, i, acc) == Parsed(TypeSignature(acc + ms), |s|)
    decreases ms
  {
    if ms == [] {
      assert acc + ms == acc;
    } else {
      var m := ms[0];
      var j := i + |Spelling(m)|;
      SplitFirstMember(s, i, |s|, ms, "");
      assert SpellingAll(ms[1..]) + "" == SpellingAll(ms[1..]);
      MemberOfSpelling(s, i, m);
      TopStep(s, i, acc, m, j);
      ParseTopOfSpelling(ms[1..], acc + [m], s, j);
      ConsAppend(acc, ms);
    }
  }

  // ---------------------------------------------------------------------
  // The accepted language, and the round trip through `str`.

  /** On success the whole input was consumed, the tree is shaped and it spells the input. */
  lemma ParsedSignatureSpellsInput(s: string)
    requires ParseSignature(s).Some?
    ensures AllShaped(ParseSignature(s).value.members)
    ensures SpellingAll(ParseSignature(s).value.members) == s
  {
    ParseTopSpelled(s, 0, []);
    assert s[0..] == s;
  }

  /** Every shaped signature is parsed back from its spelling. */
  lemma SpelledSignatureParses(sig: TypeSignature)
    requires AllShaped(sig.members)
    ensures ParseSignature(SpellingAll(sig.members)) == Some(sig)
    ensures ParseOutput(SpellingAll(sig.members)) == []
  {
    var s := SpellingAll(sig.members);
    assert s[0..|s|] == s;
    ParseTopOfSpelling(sig.members, [], s, 0);
    assert [] + sig.members == sig.members;
  }

  /** The parser accepts exactly the spellings of shaped signatures. */
  lemma AcceptedLanguage(s: string)
    ensures ParseSignature(s).Some? <==>
      exists sig: TypeSignature :: AllShaped(sig.members) && SpellingAll(sig.members) == s
  {
    if ParseSignature(s).Some? {
      ParsedSignatureSpellsInput(s);
    }
    if exists sig: TypeSignature :: AllShaped(sig.members) && SpellingAll(sig.members) == s {
      var sig: TypeSignature :| AllShaped(sig.members) && SpellingAll(sig.members) == s;
      SpelledSignatureParses(sig);
    }
  }

  /** Two shaped signatures with the same spelling are equal. */
  lemma SpellingInjective(a: TypeSignature, b: TypeSignature)
    requires AllShaped(a.members) && AllShaped(b.members)
    requires SpellingAll(a.members) == SpellingAll(b.members)
    ensures a == b
  {
    SpelledSignatureParses(a);
    SpelledSignatureParses(b);
  }

  lemma {:induction false} RenderIsSpelling(t: DBusType)
    requires Shaped(t) && DictsPaired(t)
    ensures Render(t) == Spelling(t)
    decreases t, 1
  {
    match t
    case Array(ms) =>
      assert ms == [ms[0]];
      SpellingAllSingleton(ms[0]);
      RenderIsSpelling(ms[0]);
      assert Render(t) == "a" + Render(ms[0]);
    case Struct(ms) =>
      RenderAllIsSpellingAll(ms);
    case DictEntry(ms) =>
      RenderIsSpelling(ms[0]);
      RenderIsSpelling(ms[1]);
      SpellingAllCons(ms);
      SpellingAllSingleton(ms[1]);
      assert ms[1..] == [ms[1]];
    case _ =>
  }

  lemma {:induction false} RenderAllIsSpellingAll(ts: seq<DBusType>)
    requires AllShaped(ts) && AllDictsPaired(ts)
    ensures RenderAll(ts) == SpellingAll(ts)
    decreases ts, 0
  {
    if ts != [] {
      RenderIsSpelling(ts[0]);
      RenderAllIsSpellingAll(ts[1..]);
    }
  }

  /** `str(parse(s)) == s` whenever every dict entry of the result has a key and a value. */
  lemma RoundTrip(s: string)
    requires ParseSignature(s).Some?
    requires AllDictsPaired(ParseSignature(s).value.members)
    ensures RenderSignature(ParseSignature(s).value) == s
  {
    ParsedSignatureSpellsInput(s);
    RenderAllIsSpellingAll(ParseSignature(s).value.members);
  }

  /** `parse(str(sig)) == sig` for every shaped signature whose dict entries are pairs. */
  lemma RenderedSignatureParses(sig: TypeSignature)
    requires AllShaped(sig.members) && AllDictsPaired(sig.members)
    ensures ParseSignature(RenderSignature(sig)) == Some(sig)
  {
    RenderAllIsSpellingAll(sig.members);
    SpelledSignatureParses(sig);
  }

  /** A dict entry is rejected right after the spelling of its third member,
      whatever follows. */
  lemma ThirdDictMemberRejected(s: string, i: nat, j: nat, k: nat, n: nat,
                                t0: DBusType, t1: DBusType, t2: DBusType)
    requires Shaped(t0) && Shaped(t1) && Shaped(t2)
    requires i <= j <= k <= n <= |s|
    requires s[i..j] == Spelling(t0) && s[j..k] == Spelling(t1) && s[k..n] == Spelling(t2)
    ensures ParseOneAt(s, i, '{') == Failed(InvalidDict, n)
  {
    var none: seq<DBusType> := [];
    DictMemberStep(s, i, j, none, t0);
    DictMemberStep(s, j, k, none + [t0], t1);
    DictMemberStep(s, k, n, none + [t0] + [t1], t2);
  }

  /** The dict loop meeting the spelling of one member: it goes on, or rejects a third. */
  lemma DictMemberStep(s: string, i: nat, j: nat, acc: seq<DBusType>, t: DBusType)
    requires Shaped(t) && i <= j <= |s| && s[i..j] == Spelling(t)
    ensures ParseDictAt(s, i, acc) ==
      if |acc| >= 2 then Failed(InvalidDict, j) else ParseDictAt(s, j, acc + [t])
    decreases t, 3
  {
    MemberOfSpelling(s, i, t);
    DictStep(s, i, acc, t, j);
  }

  // ---------------------------------------------------------------------
  // Diagnostics.

  const InvalidTypeDiagnostics: set<Diagnostic> :=
    {IncompleteArray, IncompleteStruct, IncompleteDict, InvalidDict}

  /** One of the five messages the parser can record. */
  predicate IsParserDiagnostic(d: Diagnostic) {
    d in InvalidTypeDiagnostics || exists c :: d == UnknownType(c)
  }

  lemma {:induction false} ParseOneFailureKnown(s: string, i: nat, c: char)
    requires i <= |s| && ParseOneAt(s, i, c).Failed?
    ensures IsParserDiagnostic(ParseOneAt(s, i, c).diag)
    decreases |s| - i, 1
  {
    if BasicOfCode(c).Some? {
    } else if c == 'a' {
      if i < |s| {
        ParseOneFailureKnown(s, i + 1, s[i]);
      }
    } else if c == '(' {
      ParseStructFailureKnown(s, i, []);
    } else if c == '{' {
      ParseDictFailureKnown(s, i, []);
    } else {
      assert ParseOneAt(s, i, c).diag == UnknownType(c);
    }
  }

  lemma {:induction false} ParseStructFailureKnown(s: string, i: nat, acc: seq<DBusType>)
    requires i <= |s| && ParseStructAt(s, i, acc).Failed?
    ensures IsParserDiagnostic(ParseStructAt(s, i, acc).diag)
    decreases |s| - i, 0
  {
    if i < |s| && s[i] != ')' {
      var o := ParseOneAt(s, i + 1, s[i]);
      if o.Failed? {
        ParseOneFailureKnown(s, i + 1, s[i]);
      } else {
        ParseStructFailureKnown(s, o.next, acc + [o.value]);
      }
    }
  }

  lemma {:induction false} ParseDictFailureKnown(s: string, i: nat, acc: seq<DBusType>)
    requires i <= |s| && ParseDictAt(s, i, acc).Failed?
    ensures IsParserDiagnostic(ParseDictAt(s, i, acc).diag)
    decreases |s| - i, 0
  {
    if i < |s| && s[i] != '}' {
      var o := ParseOneAt(s, i + 1, s[i]);
      if o.Failed? {
        ParseOneFailureKnown(s, i + 1, s[i]);
      } else if |acc| < 2 {
        ParseDictFailureKnown(s, o.next, acc + [o.value]);
      }
    }
  }

  lemma {:induction false} ParseTopFailureKnown(s: string, i: nat, acc: seq<DBusType>)
    requires i <= |s| && ParseTopAt(s, i, acc).Failed?
    ensures IsParserDiagnostic(ParseTopAt(s, i, acc).diag)
    decreases |s| - i
  {
    if i < |s| {
      var o := ParseOneAt(s, i + 1, s[i]);
      if o.Failed? {
        ParseOneFailureKnown(s, i + 1, s[i]);
      } else {
        ParseTopFailureKnown(s, o.next, acc + [o.value]);
      }
    }
  }

  /** `parse()` returns `None` exactly when it recorded output, and then it
      recorded exactly one of the parser's messages. */
  lemma FailedParseReportsOnce(s: string)
    ensures ParseSignature(s).None? <==> ParseOutput(s) != []
    ensures ParseSignature(s).None? ==>
      |ParseOutput(s)| == 1 && IsParserDiagnostic(ParseOutput(s)[0])
  {
    if ParseTopAt(s, 0, []).Failed? {
      ParseTopFailureKnown(s, 0, []);
    }
  }

  // ---------------------------------------------------------------------
  // The cases of dbusapi/tests/test_typeparser.py.

  /** `s` is rejected with the single diagnostic `d`. */
  predicate Rejects(s: string, d: Diagnostic) {
    ParseSignature(s) == None && ParseOutput(s) == [d]
  }

  lemma RejectedUnknownCodes()
    ensures Rejects("?", UnknownType('?'))
    ensures Rejects("ii)", UnknownType(')'))
  {
    assert ParseTopAt("ii)", 0, []) == ParseTopAt("ii)", 1, [Int32]);
    assert ParseTopAt("ii)", 1, [Int32]) == ParseTopAt("ii)", 2, [Int32, Int32]);
  }

  lemma RejectedIncompleteArray()
    ensures Rejects("aa", IncompleteArray)
  {
    assert ParseOneAt("aa", 2, 'a') == Failed(IncompleteArray, 2);
  }

  lemma RejectedIncompleteStruct()
    ensures Rejects("(ii", IncompleteStruct)
  {
    assert ParseStructAt("(ii", 1, []) == ParseStructAt("(ii", 2, [Int32]);
    assert ParseStructAt("(ii", 2, [Int32]) == ParseStructAt("(ii", 3, [Int32, Int32]);
  }

  lemma RejectedThirdDictMember()
    ensures Rejects("a{suu}", InvalidDict)
  {
    var s := "a{suu}";
    assert s[2..3] == Spelling(String) && s[3..4] == Spelling(UInt32) && s[4..5] == Spelling(UInt32);
    ThirdDictMemberRejected(s, 2, 3, 4, 5, String, UInt32, UInt32);
  }

  lemma RejectedIncompleteDicts()
    ensures Rejects("a{su", IncompleteDict)
    ensures Rejects("a{s", IncompleteDict)
  {
    assert ParseDictAt("a{su", 2, []) == ParseDictAt("a{su", 3, [String]);
    assert ParseDictAt("a{su", 3, [String]) == ParseDictAt("a{su", 4, [String, UInt32]);
    assert ParseDictAt("a{s", 2, []) == ParseDictAt("a{s", 3, [String]);
  }

  /** `s` is accepted as `sig` with no output, and `str(sig)` gives `s` back. */
  predicate Accepts(s: string, sig: TypeSignature) {
    ParseSignature(s) == Some(sig) && ParseOutput(s) == [] && RenderSignature(sig) == s
  }

  lemma AcceptedCase(sig: TypeSignature, s: string)
    requires AllShaped(sig.members) && AllDictsPaired(sig.members)
    requires RenderSignature(sig) == s
    ensures Accepts(s, sig)
  {
    RenderAllIsSpellingAll(sig.members);
    SpelledSignatureParses(sig);
  }

  lemma RenderAllOne(a: DBusType)
    ensures RenderAll([a]) == Render(a)
  {
    assert [a][1..] == [];
  }

  lemma RenderAllTwo(a: DBusType, b: DBusType)
    ensures RenderAll([a, b]) == Render(a) + Render(b)
  {
    assert [a, b][1..] == [b];
    RenderAllOne(b);
  }

  lemma AcceptedBasicSignatures()
    ensures Accepts("", TypeSignature([]))
    ensures Accepts("i", TypeSignature([Int32]))
    ensures Accepts("ii", TypeSignature([Int32, Int32]))
  {
    AcceptedCase(TypeSignature([]), "");
    RenderAllOne(Int32);
    AcceptedCase(TypeSignature([Int32]), "i");
    RenderAllTwo(Int32, Int32);
    AcceptedCase(TypeSignature([Int32, Int32]), "ii");
  }

  /** The empty signature is accepted as a signature with no members, although
      `parse()` is documented to return a non-empty list of types. */
  lemma EmptySignatureHasNoMembers()
    ensures ParseSignature("") == Some(TypeSignature([])) && ParseOutput("") == []
    ensures |ParseSignature("").value.members| == 0
  {
    AcceptedCase(TypeSignature([]), "");
  }

  /** What the documentation of `parse()` evidently means: an accepted
      signature has members exactly when it is not empty. */
  lemma ParsedMembersEmptyOnlyForEmptyInput(s: string)
    requires ParseSignature(s).Some?
    ensures |ParseSignature(s).value.members| > 0 <==> s != ""
  {
    var ms := ParseSignature(s).value.members;
    ParsedSignatureSpellsInput(s);
    if ms != [] {
      SpellingAllCons(ms);
      SpellingStartsWithLead(ms[0]);
    }
  }

  lemma AcceptedArraySignatures()
    ensures Accepts("aiai", TypeSignature([Array([Int32]), Array([Int32])]))
    ensures Accepts("aai", TypeSignature([Array([Array([Int32])])]))
  {
    var ai := Array([Int32]);
    assert Render(ai) == "ai";
    RenderAllTwo(ai, ai);
    AcceptedCase(TypeSignature([ai, ai]), "aiai");
    assert Render(Array([ai])) == "aai";
    RenderAllOne(Array([ai]));
    AcceptedCase(TypeSignature([Array([ai])]), "aai");
  }

  lemma AcceptedStructSignature()
    ensures Accepts("(iii)", TypeSignature([Struct([Int32, Int32, Int32])]))
  {
    var iii := [Int32, Int32, Int32];
    assert iii[1..] == [Int32, Int32];
    RenderAllTwo(Int32, Int32);
    assert RenderAll(iii) == "iii";
    assert Render(Struct(iii)) == "(iii)";
    RenderAllOne(Struct(iii));
    AcceptedCase(TypeSignature([Struct(iii)]), "(iii)");
  }

  lemma AcceptedStructPairSignature()
    ensures Accepts("(ii)(ii)", TypeSignature([Struct([Int32, Int32]), Struct([Int32, Int32])]))
  {
    var ii := Struct([Int32, Int32]);
    RenderAllTwo(Int32, Int32);
    assert Render(ii) == "(ii)";
    RenderAllTwo(ii, ii);
    AcceptedCase(TypeSignature([ii, ii]), "(ii)(ii)");
  }

  lemma AcceptedNestedStructSignature()
    ensures Accepts("(i(ii))", TypeSignature([Struct([Int32, Struct([Int32, Int32])])]))
  {
    var ii := Struct([Int32, Int32]);
    RenderAllTwo(Int32, Int32);
    assert Render(ii) == "(ii)";
    assert Shaped(ii) && DictsPaired(ii);
    assert Shaped(Struct([Int32, ii])) && DictsPaired(Struct([Int32, ii]));
    RenderAllTwo(Int32, ii);
    assert Render(Struct([Int32, ii])) == "(i(ii))";
    RenderAllOne(Struct([Int32, ii]));
    AcceptedCase(TypeSignature([Struct([Int32, ii])]), "(i(ii))");
  }

  lemma AcceptedArrayOfStructSignature()
    ensures Accepts("a(ii)", TypeSignature([Array([Struct([Int32, Int32])])]))
  {
    var ii := Struct([Int32, Int32]);
    RenderAllTwo(Int32, Int32);
    assert Render(ii) == "(ii)";
    assert Shaped(ii) && DictsPaired(ii);
    assert Shaped(Array([ii])) && DictsPaired(Array([ii]));
    assert Render(Array([ii])) == "a(ii)";
    RenderAllOne(Array([ii]));
    AcceptedCase(TypeSignature([Array([ii])]), "a(ii)");
  }

  lemma AcceptedDictSignature()
    ensures Accepts("a{us}", TypeSignature([Array([DictEntry([UInt32, String])])]))
  {
    var e := DictEntry([UInt32, String]);
    var d := Array([e]);
    assert Shaped(e) && DictsPaired(e);
    assert Shaped(d) && DictsPaired(d);
    assert Render(d) == "a{us}";
    RenderAllOne(d);
    AcceptedCase(TypeSignature([d]), "a{us}");
  }

  lemma AcceptedDictThenBasicSignature()
    ensures Accepts("a{us}i", TypeSignature([Array([DictEntry([UInt32, String])]), Int32]))
  {
    var e := DictEntry([UInt32, String]);
    var d := Array([e]);
    assert Shaped(e) && DictsPaired(e);
    assert Shaped(d) && DictsPaired(d);
    assert Render(d) == "a{us}";
    RenderAllTwo(d, Int32);
    AcceptedCase(TypeSignature([d, Int32]), "a{us}i");
  }

  lemma AcceptedUnsignedSignatures()
    ensures Accepts("u", TypeSignature([UInt32]))
    ensures Accepts("uu", TypeSignature([UInt32, UInt32]))
  {
    RenderAllOne(UInt32);
    AcceptedCase(TypeSignature([UInt32]), "u");
    RenderAllTwo(UInt32, UInt32);
    AcceptedCase(TypeSignature([UInt32, UInt32]), "uu");
  }

  lemma AcceptedSingleArraySignatures()
    ensures Accepts("ai", TypeSignature([Array([Int32])]))
    ensures Accepts("au", TypeSignature([Array([UInt32])]))
  {
    assert Render(Array([Int32])) == "ai";
    RenderAllOne(Array([Int32]));
    AcceptedCase(TypeSignature([Array([Int32])]), "ai");
    assert Render(Array([UInt32])) == "au";
    RenderAllOne(Array([UInt32]));
    AcceptedCase(TypeSignature([Array([UInt32])]), "au");
  }

  lemma AcceptedVariantSignatures()
    ensures Accepts("av", TypeSignature([Array([Variant])]))
    ensures Accepts("(v)", TypeSignature([Struct([Variant])]))
  {
    AcceptedVariantArray();
    AcceptedVariantStruct();
  }

  lemma AcceptedVariantArray()
    ensures Accepts("av", TypeSignature([Array([Variant])]))
  {
    assert Render(Array([Variant])) == "av";
    RenderAllOne(Array([Variant]));
    AcceptedCase(TypeSignature([Array([Variant])]), "av");
  }

  lemma AcceptedVariantStruct()
    ensures Accepts("(v)", TypeSignature([Struct([Variant])]))
  {
    RenderAllOne(Variant);
    assert Render(Struct([Variant])) == "(v)";
    RenderAllOne(Struct([Variant]));
    AcceptedCase(TypeSignature([Struct([Variant])]), "(v)");
  }

  lemma AcceptedMixedStructSignature()
    ensures Accepts("(ius)", TypeSignature([Struct([Int32, UInt32, String])]))
  {
    var ius := [Int32, UInt32, String];
    assert ius[1..] == [UInt32, String];
    RenderAllTwo(UInt32, String);
    assert RenderAll(ius) == "ius";
    assert Render(Struct(ius)) == "(ius)";
    RenderAllOne(Struct(ius));
    AcceptedCase(TypeSignature([Struct(ius)]), "(ius)");
  }

  /** Lenient dict entries: `{}` and `{s}` parse, also at top level, but `str`
      then shows placeholders, so the round trip is claimed only for pairs. */
  lemma LenientDictEntries()
    ensures ParseSignature("{}") == Some(TypeSignature([DictEntry([])]))
    ensures ParseSignature("a{s}") == Some(TypeSignature([Array([DictEntry([String])])]))
    ensures RenderSignature(ParseSignature("a{s}").value) == "a{s?}"
  {
    var e, d := DictEntry([]), DictEntry([String]);
    SpellingAllSingleton(e);
    assert Spelling(e) == "{" + SpellingAll([]) + "}" == "{}";
    SpelledSignatureParses(TypeSignature([e]));
    SpellingAllSingleton(String);
    SpellingAllSingleton(d);
    SpellingAllSingleton(Array([d]));
    assert Spelling(d) == "{s}";
    assert Spelling(Array([d])) == "a{s}";
    assert Shaped(d) && Shaped(Array([d]));
    SpelledSignatureParses(TypeSignature([Array([d])]));
    assert Render(Array([d])) == "a{s?}";
    RenderAllOne(Array([d]));
  }

  /** `str` as written raises on the signature the parser returns for `a{s}`. */
  lemma AsWrittenDictEntryRaisesOnParsedTree()
    ensures ParseSignature("a{s}").Some?
    ensures RenderAsWritten(ParseSignature("a{s}").value.members[0]) == None
    ensures RenderSignatureAsWritten(ParseSignature("a{s}").value) == None
  {
    LenientDictEntries();
    var d := DictEntry([String]);
    assert RenderAsWritten(d) == None;
    assert RenderAsWritten(Array([d])) == None;
    assert [Array([d])][1..] == [];
  }

  /**
   * `str(parse(s))` as written: it raises exactly when some dict entry of
   * the result lacks a key or a value, and otherwise gives `s` back.
   */
  lemma AsWrittenRoundTrip(s: string)
    requires ParseSignature(s).Some?
    ensures RenderSignatureAsWritten(ParseSignature(s).value).Some? <==>
      AllDictsPaired(ParseSignature(s).value.members)
    ensures RenderSignatureAsWritten(ParseSignature(s).value).Some? ==>
      RenderSignatureAsWritten(ParseSignature(s).value).value == s
  {
    ParsedSignatureSpellsInput(s);
    AllAsWrittenRendersExactlyPaired(ParseSignature(s).value.members);
    if AllDictsPaired(ParseSignature(s).value.members) {
      RoundTrip(s);
    }
  }

  /** `get_output_codes()` does not list the code of every message the parser records. */
  lemma OutputCodesOmitInvalidType()
    ensures ParseOutput("aa") == [IncompleteArray]
    ensures ParseOutput("aa")[0].code !in TypeParser.GetOutputCodes()
  {
    RejectedIncompleteArray();
  }
}
