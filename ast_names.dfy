/**
 * The four name validators of dbusapi/ast.py.
 *
 * Each validator is a `re.match` test, which is anchored at the start of
 * the string only: a string is accepted as soon as some prefix of it is in
 * the regular language.  Each validator is written here as the direct test
 * on the first characters that this amounts to, and proved equal to
 * "some prefix lies in the language", with the language itself defined
 * from the regular expression's structure.
 */
module AstNames {

  /** `[A-Za-z0-9_]` */
  predicate IsWordChar(c: char) {
    ('A' <= c <= 'Z') || ('a' <= c <= 'z') || ('0' <= c <= '9') || c == '_'
  }

  /** `[A-Za-z_]` */
  predicate IsWordStart(c: char) {
    ('A' <= c <= 'Z') || ('a' <= c <= 'z') || c == '_'
  }

  /** The longest name the interface and member validators accept. */
  const MaxNameLength: nat := 255

  // ---------------------------------------------------------------------
  // The regular languages, defined on whole words.
  // ---------------------------------------------------------------------

  /** `[A-Za-z0-9_]+` */
  predicate IsWord(w: string) {
    |w| >= 1 && forall i :: 0 <= i < |w| ==> IsWordChar(w[i])
  }

  /** `[A-Za-z_][A-Za-z0-9_]*` */
  predicate IsElement(w: string) {
    |w| >= 1 && IsWordStart(w[0]) && forall i :: 1 <= i < |w| ==> IsWordChar(w[i])
  }

  /** `(/[A-Za-z0-9_]+)+`: one or more slash-led segments. */
  predicate InAbsolutePathLanguage(w: string)
    decreases |w|
  {
    |w| >= 2 && w[0] == '/' &&
    exists k :: 2 <= k <= |w| && IsWord(w[1..k]) && (k == |w| || InAbsolutePathLanguage(w[k..]))
  }

  /** `[A-Za-z0-9_]+(/[A-Za-z0-9_]+)*` */
  predicate InRelativePathLanguage(w: string) {
    exists k :: 1 <= k <= |w| && IsWord(w[..k]) && (k == |w| || InAbsolutePathLanguage(w[k..]))
  }

  /** `(\.[A-Za-z_][A-Za-z0-9_]*)+` */
  predicate InDottedTailLanguage(w: string)
    decreases |w|
  {
    |w| >= 2 && w[0] == '.' &&
    exists k :: 2 <= k <= |w| && IsElement(w[1..k]) && (k == |w| || InDottedTailLanguage(w[k..]))
  }

  /** `[A-Za-z_][A-Za-z0-9_]*(\.[A-Za-z_][A-Za-z0-9_]*)+` */
  predicate InInterfaceLanguage(w: string) {
    exists k :: 1 <= k < |w| && IsElement(w[..k]) && InDottedTailLanguage(w[k..])
  }

  /** `re.match(pattern, s) is not None` for a pattern whose language is `lang`. */
  ghost predicate MatchesPrefix(s: string, lang: string -> bool) {
    exists j :: 0 <= j <= |s| && lang(s[..j])
  }

  // ---------------------------------------------------------------------
  // The validators.
  // ---------------------------------------------------------------------

  /** `Node.is_valid_absolute_object_path` */
  predicate IsValidAbsoluteObjectPath(p: string) {
    p == "/" || (|p| >= 2 && p[0] == '/' && IsWordChar(p[1]))
  }

  /** `Node.is_valid_relative_object_path` */
  predicate IsValidRelativeObjectPath(p: string) {
    |p| >= 1 && IsWordChar(p[0])
  }

  /** The end of the run of word characters that starts at `i`. */
  function WordRunEnd(s: string, i: nat): (k: nat)
    requires i <= |s|
    ensures i <= k <= |s|
    ensures forall m :: i <= m < k ==> IsWordChar(s[m])
    ensures k < |s| ==> !IsWordChar(s[k])
    decreases |s| - i
  {
    if i < |s| && IsWordChar(s[i]) then WordRunEnd(s, i + 1) else i
  }

  /** `Interface.is_valid_interface_name`: an element, a dot and the first
      character of a second element open the name. */
  predicate IsValidInterfaceName(n: string) {
    |n| <= MaxNameLength && |n| >= 1 && IsWordStart(n[0]) &&
    var k := WordRunEnd(n, 1);
    k + 1 < |n| && n[k] == '.' && IsWordStart(n[k + 1])
  }

  /** `Callable.is_valid_name` */
  predicate IsValidMemberName(n: string) {
    |n| <= MaxNameLength && |n| >= 1 && IsWordStart(n[0])
  }

  // ---------------------------------------------------------------------
  // Each validator is the prefix match of its regular expression.
  // ---------------------------------------------------------------------

  lemma AbsolutePathIsPrefixMatch(p: string)
    ensures IsValidAbsoluteObjectPath(p) <==>
      p == "/" || MatchesPrefix(p, InAbsolutePathLanguage)
  {
    if |p| >= 2 && p[0] == '/' && IsWordChar(p[1]) {
      var w := p[..2];
      assert IsWord(w[1..2]);
      assert InAbsolutePathLanguage(w);
      assert (InAbsolutePathLanguage)(p[..2]);
    }
    if MatchesPrefix(p, InAbsolutePathLanguage) {
      var j :| 0 <= j <= |p| && InAbsolutePathLanguage(p[..j]);
      var w := p[..j];
      var k :| 2 <= k <= |w| && IsWord(w[1..k]) && (k == |w| || InAbsolutePathLanguage(w[k..]));
      assert w[1..k][0] == p[1];
    }
  }

  lemma RelativePathIsPrefixMatch(p: string)
    ensures IsValidRelativeObjectPath(p) <==> MatchesPrefix(p, InRelativePathLanguage)
  {
    if |p| >= 1 && IsWordChar(p[0]) {
      var w := p[..1];
      assert IsWord(w[..1]);
      assert InRelativePathLanguage(w);
      assert (InRelativePathLanguage)(p[..1]);
    }
    if MatchesPrefix(p, InRelativePathLanguage) {
      var j :| 0 <= j <= |p| && InRelativePathLanguage(p[..j]);
      var w := p[..j];
      var k :| 1 <= k <= |w| && IsWord(w[..k]) && (k == |w| || InAbsolutePathLanguage(w[k..]));
      assert w[..k][0] == p[0];
    }
  }

  /** Inside a run of word characters no element can stop short of the run
      and still be followed by a dot. */
  lemma ElementEndsAtRunEnd(n: string, k: nat)
    requires 1 <= k < |n| && IsElement(n[..k]) && n[k] == '.'
    ensures WordRunEnd(n, 1) == k
  {
    var e := n[..k];
    assert forall m :: 1 <= m < k ==> IsWordChar(n[m]) by {
      forall m | 1 <= m < k ensures IsWordChar(n[m]) {
        assert e[m] == n[m];
      }
    }
    RunEndFrom(n, 1, k);
  }

  lemma {:induction false} RunEndFrom(n: string, i: nat, k: nat)
    requires i <= k < |n| && !IsWordChar(n[k])
    requires forall m :: i <= m < k ==> IsWordChar(n[m])
    ensures WordRunEnd(n, i) == k
    decreases k - i
  {
    if i < k {
      RunEndFrom(n, i + 1, k);
    }
  }

  /** The prefix an element, a dot and one start character make up is in
      the interface-name language. */
  lemma InterfacePrefixWitness(n: string)
    requires IsValidInterfaceName(n)
    ensures InInterfaceLanguage(n[..WordRunEnd(n, 1) + 2])
  {
    var k := WordRunEnd(n, 1);
    var w := n[..k + 2];
    assert IsElement(w[..k]) by {
      forall m | 1 <= m < k ensures IsWordChar(w[..k][m]) {
        assert w[..k][m] == n[m];
      }
    }
    var t := w[k..];
    assert t[0] == '.' && t[1..2] == [n[k + 1]];
    assert IsElement(t[1..2]);
    assert InDottedTailLanguage(t);
  }

  /** A matching prefix puts a dot right after the first run of word
      characters, and an element start right after that dot. */
  lemma InterfacePrefixShape(n: string, j: nat)
    requires j <= |n| && InInterfaceLanguage(n[..j])
    ensures |n| >= 1 && IsWordStart(n[0])
    ensures WordRunEnd(n, 1) + 1 < |n| && n[WordRunEnd(n, 1)] == '.' && IsWordStart(n[WordRunEnd(n, 1) + 1])
  {
    var w := n[..j];
    var k :| 1 <= k < |w| && IsElement(w[..k]) && InDottedTailLanguage(w[k..]);
    assert w[..k] == n[..k];
    var t := w[k..];
    var k2 :| 2 <= k2 <= |t| && IsElement(t[1..k2]) && (k2 == |t| || InDottedTailLanguage(t[k2..]));
    assert t[0] == n[k] && t[1..k2][0] == n[k + 1];
    ElementEndsAtRunEnd(n, k);
  }

  lemma InterfaceNameIsPrefixMatch(n: string)
    ensures IsValidInterfaceName(n) <==>
      |n| <= MaxNameLength && MatchesPrefix(n, InInterfaceLanguage)
  {
    if IsValidInterfaceName(n) {
      InterfacePrefixWitness(n);
      assert (InInterfaceLanguage)(n[..WordRunEnd(n, 1) + 2]);
    }
    if |n| <= MaxNameLength && MatchesPrefix(n, InInterfaceLanguage) {
      var j :| 0 <= j <= |n| && InInterfaceLanguage(n[..j]);
      InterfacePrefixShape(n, j);
    }
  }

  lemma MemberNameIsPrefixMatch(n: string)
    ensures IsValidMemberName(n) <==>
      |n| <= MaxNameLength && MatchesPrefix(n, IsElement)
  {
    if IsValidMemberName(n) {
      assert IsElement(n[..1]);
      assert (IsElement)(n[..1]);
    }
    if |n| <= MaxNameLength && MatchesPrefix(n, IsElement) {
      var j :| 0 <= j <= |n| && IsElement(n[..j]);
      assert n[..j][0] == n[0];
    }
  }

  // ---------------------------------------------------------------------
  // The names the test suites use.
  // ---------------------------------------------------------------------

  lemma ObjectPathExamples()
    ensures IsValidAbsoluteObjectPath("/") && IsValidAbsoluteObjectPath("/abs/N")
    ensures !IsValidAbsoluteObjectPath("//") && !IsValidAbsoluteObjectPath("rel/N")
    ensures IsValidRelativeObjectPath("rel/N") && IsValidRelativeObjectPath("N")
    ensures !IsValidRelativeObjectPath("/abs/N") && !IsValidRelativeObjectPath("")
  {
  }

  lemma InterfaceNameExamples()
    ensures IsValidInterfaceName("I.I") && IsValidInterfaceName("Some.Interface")
    ensures !IsValidInterfaceName("0") && !IsValidInterfaceName("I") && !IsValidInterfaceName("I.")
  {
    assert WordRunEnd("I.I", 1) == 1;
    assert WordRunEnd("Some.Interface", 4) == 4;
    assert WordRunEnd("Some.Interface", 1) == 4;
    assert WordRunEnd("I.", 1) == 1;
  }

  lemma MemberNameExamples()
    ensures IsValidMemberName("M") && IsValidMemberName("AMethod") && IsValidMemberName("_9")
    ensures !IsValidMemberName("0M") && !IsValidMemberName("*S") && !IsValidMemberName("")
  {
  }

  /** A member name is refused once it is longer than 255 characters, even
      if every character is valid. */
  lemma MemberNameLengthLimit(n: string)
    requires |n| == MaxNameLength + 1 && forall i :: 0 <= i < |n| ==> n[i] == 'A'
    ensures !IsValidMemberName(n) && IsValidMemberName(n[..MaxNameLength])
  {
  }
}
