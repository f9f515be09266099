/** The argument of workspace actions: a position or a name, and an optional output. */
module WorkspaceArguments {
  import opened Config
  import opened Decimals
  import opened Options

  datatype Reference = Index(value: nat) | Name(name: string)

  /** No output is the empty one. */
  datatype WorkspaceArg = WorkspaceArg(reference: Reference, output: string)

  // Parsing

  /** The position of the first `c`, or the length. */
  function Find(s: string, c: char, from: nat): (k: nat)
    requires from <= |s|
    ensures from <= k <= |s| && (k < |s| ==> s[k] == c) && forall i :: from <= i < k ==> s[i] != c
    decreases |s| - from
  {
    if from == |s| || s[from] == c then from else Find(s, c, from + 1)
  }

  function ParsedReference(selector: string): Option<Reference> {
    var n := |selector|;
    if n > 0 && (selector[0] == '"' || selector[n - 1] == '"') then
      if selector[0] == '"' && selector[n - 1] == '"' && n > 2 && '"' !in selector[1..n - 1]
      then Some(Name(selector[1..n - 1]))
      else None
    else if AllDigits(selector) then
      if n > 0 && 1 <= Value(selector) <= MAX_WORKSPACES then Some(Index(Value(selector))) else None
    else Some(Name(selector))
  }

  function Parsed(arg: string): Option<WorkspaceArg> {
    var k := Find(arg, '/', 0);
    if k == |arg| then
      var reference := ParsedReference(arg);
      if reference.Some? then Some(WorkspaceArg(reference.value, "")) else None
    else if k == 0 || k + 1 == |arg| || '/' in arg[k + 1..] then None
    else
      var reference := ParsedReference(arg[..k]);
      if reference.Some? then Some(WorkspaceArg(reference.value, arg[k + 1..])) else None
  }

  /** `parseWorkspaceArg` */
  method ParseWorkspaceArg(arg: string) returns (parsed: Option<WorkspaceArg>)
    ensures parsed == Parsed(arg)
  {
    var selector, output := arg, "";
    var separator := Find(selector, '/', 0);
    if separator != |selector| {
      if separator == 0 || separator + 1 == |selector| || '/' in selector[separator + 1..] {
        return None;
      }
      output := selector[separator + 1..];
      selector := selector[..separator];
    }
    var beginsQuoted := |selector| > 0 && selector[0] == '"';
    var endsQuoted := |selector| > 0 && selector[|selector| - 1] == '"';
    if beginsQuoted || endsQuoted {
      if !beginsQuoted || !endsQuoted || |selector| <= 2 {
        return None;
      }
      selector := selector[1..|selector| - 1];
      if '"' in selector {
        return None;
      }
      return Some(WorkspaceArg(Name(selector), output));
    }
    if AllDigits(selector) {
      var index := ReadDigits(selector);
      if selector == "" || index < 1 || index > MAX_WORKSPACES {
        return None;
      }
      return Some(WorkspaceArg(Index(index), output));
    }
    return Some(WorkspaceArg(Name(selector), output));
  }

  method ReadDigits(digits: string) returns (value: nat)
    requires AllDigits(digits)
    ensures value == Value(digits)
  {
    value := 0;
    for i := 0 to |digits|
      invariant value == Value(digits[..i])
    {
      assert digits[..i + 1][..i] == digits[..i];
      value := 10 * value + (digits[i] - '0') as nat;
    }
    assert digits[..|digits|] == digits;
  }

  // Printing

  /** The documented syntax: positions in decimal, names as they are, names of digits alone in quotes. */
  function PrintedReference(reference: Reference): string {
    match reference
    case Index(n) => Decimal(n)
    case Name(name) => if AllDigits(name) then "\"" + name + "\"" else name
  }

  function Printed(w: WorkspaceArg): string {
    PrintedReference(w.reference) + if w.output == "" then "" else "/" + w.output
  }

  predicate PrintableReference(reference: Reference) {
    match reference
    case Index(n) => 1 <= n <= MAX_WORKSPACES
    case Name(name) => name != "" && '/' !in name && name[0] != '"' && name[|name| - 1] != '"'
  }

  /** Positions that exist, non-empty names without a slash and without a quote at either end, outputs without a
      slash. */
  predicate Printable(w: WorkspaceArg) {
    PrintableReference(w.reference) && '/' !in w.output
  }

  lemma FindIs(s: string, c: char, k: nat)
    requires k <= |s| && c !in s[..k] && (k < |s| ==> s[k] == c)
    ensures Find(s, c, 0) == k
  {
    forall i | 0 <= i < k ensures s[i] != c {
      assert s[..k][i] == s[i];
    }
  }

  /** The text of a reference that holds no slash is taken whole, whatever output follows. */
  lemma PrintedParsesBy(w: WorkspaceArg)
    requires '/' !in PrintedReference(w.reference)
    ensures Parsed(Printed(w)) ==
              var reference := ParsedReference(PrintedReference(w.reference));
              if '/' in w.output || reference.None? || (PrintedReference(w.reference) == "" && w.output != "") then None
              else Some(WorkspaceArg(reference.value, w.output))
  {
    var text, all := PrintedReference(w.reference), Printed(w);
    assert all[..|text|] == text;
    FindIs(all, '/', |text|);
    if w.output == "" {
      assert all == text;
    } else {
      assert all[|text| + 1..] == w.output;
    }
  }

  lemma ReferenceRoundTrip(reference: Reference)
    requires '/' !in PrintedReference(reference)
    ensures ParsedReference(PrintedReference(reference)) == Some(reference) <==> PrintableReference(reference)
  {
    match reference
    case Index(n) => IndexRoundTrip(n);
    case Name(name) => NameRoundTrip(name);
  }

  lemma IndexRoundTrip(n: nat)
    ensures ParsedReference(Decimal(n)) == Some(Index(n)) <==> PrintableReference(Index(n))
  {
    DecimalHasValue(n);
  }

  lemma NameRoundTrip(name: string)
    requires '/' !in PrintedReference(Name(name))
    ensures ParsedReference(PrintedReference(Name(name))) == Some(Name(name)) <==> PrintableReference(Name(name))
  {
    var text := PrintedReference(Name(name));
    if AllDigits(name) {
      assert text[1..|text| - 1] == name;
    }
  }

  lemma DecimalHasNoSlash(n: nat)
    ensures '/' !in Decimal(n)
  {
    DecimalHasValue(n);
  }

  /** Every part of a parsed argument came from the text, cut at its only slash. */
  lemma ParsedIsPrintable(arg: string)
    requires Parsed(arg).Some?
    ensures Printable(Parsed(arg).value)
  {
    var k := Find(arg, '/', 0);
    var selector := if k == |arg| then arg else arg[..k];
    assert '/' !in selector;
  }

  /** An argument printed in the documented syntax parses back to itself if and only if it is printable. */
  lemma RoundTripIff(w: WorkspaceArg)
    ensures Parsed(Printed(w)) == Some(w) <==> Printable(w)
  {
    if Parsed(Printed(w)) == Some(w) {
      ParsedIsPrintable(Printed(w));
    }
    if Printable(w) {
      if w.reference.Index? {
        DecimalHasNoSlash(w.reference.value);
      }
      PrintedParsesBy(w);
      ReferenceRoundTrip(w.reference);
    }
  }

  /** What the parser accepts it also accepts in the documented syntax, with the same meaning. */
  lemma ParsingIsCanonical(arg: string)
    requires Parsed(arg).Some?
    ensures Parsed(Printed(Parsed(arg).value)) == Parsed(arg)
  {
    ParsedIsPrintable(arg);
    RoundTripIff(Parsed(arg).value);
  }

  /** The references that are accepted: quotes at both ends of a name without quotes, a number of a workspace, or any
      other text without a quote at either end. */
  lemma ReferenceAcceptedExactly(selector: string)
    ensures ParsedReference(selector).Some? <==>
              && selector != ""
              && if selector[0] == '"' || selector[|selector| - 1] == '"' then
                   |selector| > 2 && selector[0] == '"' && selector[|selector| - 1] == '"'
                   && '"' !in selector[1..|selector| - 1]
                 else AllDigits(selector) ==> 1 <= Value(selector) <= 64
  {
  }

  /** Any name without slashes and quotes may be quoted, and any number written with zeros in front. */
  lemma OtherSpellings(name: string, digits: string)
    ensures name != "" && '/' !in name && '"' !in name ==>
              Parsed("\"" + name + "\"") == Some(WorkspaceArg(Name(name), ""))
    ensures digits != "" && AllDigits(digits) && 1 <= Value(digits) <= 64 ==>
              Parsed(digits) == Some(WorkspaceArg(Index(Value(digits)), ""))
  {
    var text := "\"" + name + "\"";
    if '/' !in name {
      assert text[1..|text| - 1] == name;
      assert '/' !in text[..|text|];
      FindIs(text, '/', |text|);
    }
    if AllDigits(digits) {
      FindIs(digits, '/', |digits|);
    }
  }

  /** A slash divides a text in two, and is the only one. */
  lemma SlashDivides(selector: string, output: string)
    requires '/' !in selector
    ensures Parsed(selector + "/" + output).Some? <==>
              selector != "" && output != "" && '/' !in output && ParsedReference(selector).Some?
    ensures Parsed(selector + "/" + output).Some? ==>
              Parsed(selector + "/" + output) == Some(WorkspaceArg(ParsedReference(selector).value, output))
  {
    var text := selector + "/" + output;
    assert text[..|selector|] == selector && text[|selector| + 1..] == output;
    FindIs(text, '/', |selector|);
  }
}
