/** How configured names refer to physical outputs, by connector or by panel descriptor, ignoring ASCII case. */
module OutputNames {

  function LowerAscii(c: char): char {
    if 'A' <= c <= 'Z' then c - 'A' + 'a' else c
  }

  function Lower(s: string): (r: string)
    ensures |r| == |s|
    ensures forall i :: 0 <= i < |s| ==> r[i] == LowerAscii(s[i])
  {
    seq(|s|, i requires 0 <= i < |s| => LowerAscii(s[i]))
  }

  /** Two names refer to the same output. */
  predicate SameName(left: string, right: string) {
    Lower(left) == Lower(right)
  }

  method OutputNamesEqual(left: string, right: string) returns (equal: bool)
    ensures equal == SameName(left, right)
  {
    if |left| != |right| {
      return false;
    }
    for index := 0 to |left|
      invariant Lower(left)[..index] == Lower(right)[..index]
    {
      if LowerAscii(left[index]) != LowerAscii(right[index]) {
        assert Lower(left)[index] != Lower(right)[index];
        return false;
      }
      assert Lower(left)[..index + 1] == Lower(left)[..index] + [Lower(left)[index]];
      assert Lower(right)[..index + 1] == Lower(right)[..index] + [Lower(right)[index]];
    }
    assert Lower(left)[..|left|] == Lower(left) && Lower(right)[..|left|] == Lower(right);
    return true;
  }

  /** How a physical output identifies itself. Every field but the connector may be empty. */
  datatype OutputIdentity = OutputIdentity(connector: string, make: string, model: string, serial: string)

  function OrUnknown(value: string): string {
    if value == "" then "Unknown" else value
  }

  function OutputDescriptor(identity: OutputIdentity): string {
    OrUnknown(identity.make) + " " + OrUnknown(identity.model) + " " + OrUnknown(identity.serial)
  }

  /** Compares a configured name with the descriptor piece by piece, without building it. */
  predicate DescriptorEquals(identity: OutputIdentity, configured: string) {
    var make, model, serial := OrUnknown(identity.make), OrUnknown(identity.model), OrUnknown(identity.serial);
    var modelOffset := |make| + 1;
    var serialOffset := modelOffset + |model| + 1;
    && |configured| == |make| + |model| + |serial| + 2
    && configured[|make|] == ' '
    && configured[serialOffset - 1] == ' '
    && SameName(configured[..|make|], make)
    && SameName(configured[modelOffset..modelOffset + |model|], model)
    && SameName(configured[serialOffset..], serial)
  }

  lemma LowerConcat(a: string, b: string)
    ensures Lower(a + b) == Lower(a) + Lower(b)
  {
  }

  lemma SpaceIsItself(c: char)
    ensures LowerAscii(c) == ' ' <==> c == ' '
  {
  }

  lemma PiecesOf(x: string, a: string, b: string, c: string)
    requires x == a + " " + b + " " + c
    ensures |x| == |a| + |b| + |c| + 2 && x[..|a|] == a && x[|a|] == ' '
    ensures x[|a| + 1..|a| + 1 + |b|] == b && x[|a| + |b| + 1] == ' ' && x[|a| + |b| + 2..] == c
  {
  }

  lemma LowerOfSlice(s: string, from: nat, to: nat)
    requires from <= to <= |s|
    ensures Lower(s[from..to]) == Lower(s)[from..to]
  {
  }

  lemma SameNameIsDescriptor(identity: OutputIdentity, configured: string)
    requires SameName(configured, OutputDescriptor(identity))
    ensures DescriptorEquals(identity, configured)
  {
    var make, model, serial := OrUnknown(identity.make), OrUnknown(identity.model), OrUnknown(identity.serial);
    var l, n := Lower(configured), |make| + 1 + |model|;
    LowerFive(make, model, serial);
    SpaceIsItself(' ');
    assert Lower(" ") == " ";
    PiecesOf(l, Lower(make), Lower(model), Lower(serial));
    SpaceIsItself(configured[|make|]);
    SpaceIsItself(configured[n]);
    LowerOfSlice(configured, 0, |make|);
    LowerOfSlice(configured, |make| + 1, n);
    LowerOfSlice(configured, n + 1, |configured|);
    assert configured[0..|make|] == configured[..|make|] && configured[n + 1..|configured|] == configured[n + 1..];
  }

  lemma DescriptorIsSameName(identity: OutputIdentity, configured: string)
    requires DescriptorEquals(identity, configured)
    ensures SameName(configured, OutputDescriptor(identity))
  {
    var make, model, serial := OrUnknown(identity.make), OrUnknown(identity.model), OrUnknown(identity.serial);
    var m, s := |make| + 1, |make| + 1 + |model| + 1;
    var c1, c2, c3 := configured[..|make|], configured[m..m + |model|], configured[s..];
    assert configured == c1 + " " + c2 + " " + c3;
    LowerFive(make, model, serial);
    LowerFive(c1, c2, c3);
  }

  lemma LowerFive(a: string, b: string, c: string)
    ensures Lower(a + " " + b + " " + c) == Lower(a) + Lower(" ") + Lower(b) + Lower(" ") + Lower(c)
  {
    LowerConcat(a, " ");
    LowerConcat(a + " ", b);
    LowerConcat(a + " " + b, " ");
    LowerConcat(a + " " + b + " ", c);
  }

  /** Comparing piece by piece decides equality with the whole descriptor. */
  lemma DescriptorEqualsIsSameName(identity: OutputIdentity, configured: string)
    ensures DescriptorEquals(identity, configured) <==> SameName(configured, OutputDescriptor(identity))
  {
    if DescriptorEquals(identity, configured) {
      DescriptorIsSameName(identity, configured);
    }
    if SameName(configured, OutputDescriptor(identity)) {
      SameNameIsDescriptor(identity, configured);
    }
  }

  datatype OutputNameMatch = NoMatch | Connector | Descriptor

  function MatchName(identity: OutputIdentity, configured: string): OutputNameMatch {
    if identity.connector != "" && SameName(configured, identity.connector) then Connector
    else if identity.make == "" && identity.model == "" && identity.serial == "" then NoMatch
    else if DescriptorEquals(identity, configured) then Descriptor
    else NoMatch
  }

  /** Equal names match alike, and at most one name matches an identity by connector and one by descriptor. */
  lemma MatchIsByName(identity: OutputIdentity, a: string, b: string)
    ensures SameName(a, b) ==> MatchName(identity, a) == MatchName(identity, b)
    ensures MatchName(identity, a) == MatchName(identity, b) != NoMatch ==> SameName(a, b)
  {
    DescriptorEqualsIsSameName(identity, a);
    DescriptorEqualsIsSameName(identity, b);
  }

  /** A name means an output by its connector, or else by what its panel says of itself, with a word for what it does
      not say; a panel that says nothing has no such name. */
  lemma MatchNameExactly(identity: OutputIdentity, configured: string)
    ensures MatchName(identity, configured) == Connector <==>
              identity.connector != "" && Lower(configured) == Lower(identity.connector)
    ensures MatchName(identity, configured) == Descriptor <==>
              && !(identity.connector != "" && Lower(configured) == Lower(identity.connector))
              && (identity.make != "" || identity.model != "" || identity.serial != "")
              && Lower(configured) == Lower((if identity.make == "" then "Unknown" else identity.make) + " "
                                            + (if identity.model == "" then "Unknown" else identity.model) + " "
                                            + (if identity.serial == "" then "Unknown" else identity.serial))
  {
    DescriptorEqualsIsSameName(identity, configured);
  }
}
