/**
 * The signature parser of dbusapi/typeparser.py.
 *
 * The first half is a reference definition on values: each function takes
 * the signature and a cursor position and returns what the parser builds,
 * where the cursor ends and, on failure, the one diagnostic recorded.  The
 * class `TypeParser` below is the parser itself, with its cursor field and
 * output list, proved to agree with the reference definition.
 */
module SignatureParser {
  import opened Wrappers
  import opened Types

  /** A `(code, message)` pair appended to the parser output. */
  datatype Diagnostic = Diagnostic(code: string, message: string)

  const UnknownTypeCode: string := "unknown-type"
  const InvalidTypeCode: string := "invalid-type"

  /** `'Unknown type ‘%s’.' % character`. */
  function UnknownType(c: char): Diagnostic {
    Diagnostic(UnknownTypeCode, "Unknown type \U{2018}" + [c] + "\U{2019}.")
  }

  const IncompleteArray := Diagnostic(InvalidTypeCode, "Incomplete array declaration.")
  const IncompleteStruct := Diagnostic(InvalidTypeCode, "Incomplete structure declaration.")
  const IncompleteDict := Diagnostic(InvalidTypeCode, "Incomplete dictionary declaration.")
  const InvalidDict := Diagnostic(InvalidTypeCode, "Invalid dictionary declaration.")

  /** What a parsing step returns: a value, or the single diagnostic it
      recorded; in both cases the cursor position it leaves behind. */
  datatype Outcome<T> = Parsed(value: T, next: nat) | Failed(diag: Diagnostic, next: nat)

  function ValueOf<T>(o: Outcome<T>): Option<T> {
    if o.Parsed? then Some(o.value) else None
  }

  function Emitted<T>(o: Outcome<T>): seq<Diagnostic> {
    if o.Parsed? then [] else [o.diag]
  }

  /**
   * `_parse_one(c)` entered with the cursor at `i` (that is, just after the
   * character `c` was taken from the signature `s`).
   */
  function ParseOneAt(s: string, i: nat, c: char): (r: Outcome<DBusType>)
    requires i <= |s|
    ensures i <= r.next <= |s|
    decreases |s| - i, 1
  {
    if BasicOfCode(c).Some? then Parsed(BasicOfCode(c).value, i)
    else if c == 'a' then
      if i == |s| then Failed(IncompleteArray, i)
      else
        match ParseOneAt(s, i + 1, s[i])
        case Parsed(t, j) => Parsed(Array([t]), j)
        case Failed(d, j) => Failed(d, j)
    else if c == '(' then ParseStructAt(s, i, [])
    else if c == '{' then ParseDictAt(s, i, [])
    else Failed(UnknownType(c), i)
  }

  /** The `while True` loop of the `(` branch, with `acc` the members so far. */
  function ParseStructAt(s: string, i: nat, acc: seq<DBusType>): (r: Outcome<DBusType>)
    requires i <= |s|
    ensures i <= r.next <= |s|
    decreases |s| - i, 0
  {
    if i == |s| then Failed(IncompleteStruct, i)
    else if s[i] == ')' then Parsed(Struct(acc), i + 1)
    else
      match ParseOneAt(s, i + 1, s[i])
      case Failed(d, j) => Failed(d, j)
      case Parsed(t, j) => ParseStructAt(s, j, acc + [t])
  }

  /** The `while True` loop of the `{` branch: a third member is parsed,
      then rejected without being appended. */
  function ParseDictAt(s: string, i: nat, acc: seq<DBusType>): (r: Outcome<DBusType>)
    requires i <= |s|
    ensures i <= r.next <= |s|
    decreases |s| - i, 0
  {
    if i == |s| then Failed(IncompleteDict, i)
    else if s[i] == '}' then Parsed(DictEntry(acc), i + 1)
    else
      match ParseOneAt(s, i + 1, s[i])
      case Failed(d, j) => Failed(d, j)
      case Parsed(t, j) =>
        if |acc| >= 2 then Failed(InvalidDict, j)
        else ParseDictAt(s, j, acc + [t])
  }

  /** The top-level loop of `parse()`, with `acc` the types parsed so far. */
  function ParseTopAt(s: string, i: nat, acc: seq<DBusType>): (r: Outcome<TypeSignature>)
    requires i <= |s|
    ensures i <= r.next <= |s|
    decreases |s| - i
  {
    if i == |s| then Parsed(TypeSignature(acc), i)
    else
      match ParseOneAt(s, i + 1, s[i])
      case Failed(d, j) => Failed(d, j)
      case Parsed(t, j) => ParseTopAt(s, j, acc + [t])
  }

  /** The value `parse()` returns for signature `s`. */
  function ParseSignature(s: string): Option<TypeSignature> {
    ValueOf(ParseTopAt(s, 0, []))
  }

  /** The output `get_output()` holds after `parse()` of `s`. */
  function ParseOutput(s: string): seq<Diagnostic> {
    Emitted(ParseTopAt(s, 0, []))
  }

  class TypeParser {
    const signature: string
    var output: seq<Diagnostic>
    var index: nat

    constructor (signature: string)
      ensures this.signature == signature && output == [] && index == 0
    {
      this.signature := signature;
      output := [];
      index := 0;
    }

    /** The hard-coded list of output codes; it omits `invalid-type`. */
    static function GetOutputCodes(): seq<string> {
      [UnknownTypeCode]
    }

    method IssueOutput(d: Diagnostic)
      modifies this`output
      ensures output == old(output) + [d]
    {
      output := output + [d];
    }

    method GetOutput() returns (o: seq<Diagnostic>)
      ensures o == output
    {
      o := output;
    }

    method GetNextCharacter() returns (c: Option<char>)
      requires index <= |signature|
      modifies this`index
      ensures index <= |signature|
      ensures old(index) < |signature| ==> c == Some(signature[old(index)]) && index == old(index) + 1
      ensures old(index) == |signature| ==> c == None && index == old(index)
    {
      if index < |signature| {
        c := Some(signature[index]);
        index := index + 1;
      } else {
        c := None;
      }
    }

    method ParseOne(c: char) returns (r: Option<DBusType>)
      requires index <= |signature|
      modifies this`index, this`output
      ensures var o := ParseOneAt(signature, old(index), c);
        r == ValueOf(o) && index == o.next && output == old(output) + Emitted(o)
      decreases |signature| - index
    {
      var basic := BasicOfCode(c);
      if basic.Some? {
        return basic;
      }
      if c == 'a' {
        var next := GetNextCharacter();
        if next.None? {
          IssueOutput(IncompleteArray);
          return None;
        }
        var member := ParseOne(next.value);
        if member.None? {
          return None;
        }
        return Some(Array([member.value]));
      } else if c == '(' {
        var members: seq<DBusType> := [];
        while true
          invariant old(index) <= index <= |signature|
          invariant output == old(output)
          invariant ParseStructAt(signature, index, members) == ParseOneAt(signature, old(index), c)
          decreases |signature| - index
        {
          var next := GetNextCharacter();
          if next.None? {
            IssueOutput(IncompleteStruct);
            return None;
          }
          if next.value == ')' {
            return Some(Struct(members));
          }
          var member := ParseOne(next.value);
          if member.None? {
            return None;
          }
          members := members + [member.value];
        }
      } else if c == '{' {
        var members: seq<DBusType> := [];
        while true
          invariant old(index) <= index <= |signature|
          invariant output == old(output)
          invariant ParseDictAt(signature, index, members) == ParseOneAt(signature, old(index), c)
          decreases |signature| - index
        {
          var next := GetNextCharacter();
          if next.None? {
            IssueOutput(IncompleteDict);
            return None;
          }
          if next.value == '}' {
            return Some(DictEntry(members));
          }
          var member := ParseOne(next.value);
          if member.None? {
            return None;
          }
          if |members| >= 2 {
            IssueOutput(InvalidDict);
            return None;
          }
          members := members + [member.value];
        }
      } else {
        IssueOutput(UnknownType(c));
        return None;
      }
    }

    /**
     * `parse()`: resets the output and the cursor, so every call on the same
     * parser returns the same result and leaves the same output, whatever
     * the state left by an earlier call.
     */
    method Parse() returns (r: Option<TypeSignature>)
      modifies this`index, this`output
      ensures r == ParseSignature(signature)
      ensures output == ParseOutput(signature)
      ensures index == ParseTopAt(signature, 0, []).next
      ensures r.None? <==> output != []
      ensures r.None? ==> |output| == 1
    {
      output := [];
      index := 0;
      var members: seq<DBusType> := [];
      while true
        invariant index <= |signature|
        invariant output == []
        invariant ParseTopAt(signature, index, members) == ParseTopAt(signature, 0, [])
        decreases |signature| - index
      {
        var next := GetNextCharacter();
        if next.None? {
          break;
        }
        var member := ParseOne(next.value);
        if member.None? {
          break;
        }
        members := members + [member.value];
      }
      if output != [] {
        return None;
      }
      return Some(TypeSignature(members));
    }
  }

  /** Two successive `parse()` calls on one parser agree. */
  method ParseTwice(p: TypeParser) returns (first: Option<TypeSignature>, second: Option<TypeSignature>)
    modifies p`index, p`output
    ensures first == second && p.output == ParseOutput(p.signature)
  {
    first := p.Parse();
    var out1 := p.GetOutput();
    second := p.Parse();
    var out2 := p.GetOutput();
    assert out1 == out2;
  }
}
