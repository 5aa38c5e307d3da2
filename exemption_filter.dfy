/** The exemption filter (`filterExemptValues`): extracted values that all
    read as IPv4 addresses lose those lying in an exempt subnet; values that
    are not all addresses, or an empty or absent list of subnets, leave the
    input untouched. The IPv4 library is a parameter of the model. */
module ExemptionFilter {
  import opened Wrappers

  /** What the core asks of the `ip-address` library: `isAddress(s)` holds
      exactly when `new Address4(s)` does not throw (for a plain address as
      for a CIDR subnet), and `inSubnet(ip, subnet)` is `isInSubnet`. */
  datatype Ipv4Library = Ipv4Library(isAddress: string -> bool, inSubnet: (string, string) -> bool)

  /** `values.every(isIpAddress)`. */
  predicate AllAddresses(values: seq<string>, lib: Ipv4Library)
  {
    forall i :: 0 <= i < |values| ==> lib.isAddress(values[i])
  }

  /** `subnetObjects.some(subnet => ipObject.isInSubnet(subnet))`. */
  predicate IsExempt(ip: string, subnets: seq<string>, lib: Ipv4Library)
  {
    exists i :: 0 <= i < |subnets| && lib.inSubnet(ip, subnets[i])
  }

  /** `a` is `b` with some elements left out and the rest in order. */
  ghost predicate IsSubsequence<T>(a: seq<T>, b: seq<T>)
    decreases |b|
  {
    if |a| == 0 then true
    else if |b| == 0 then false
    else if a[0] == b[0] then IsSubsequence(a[1..], b[1..])
    else IsSubsequence(a, b[1..])
  }

  /** `values.filter(ip => !isExempt(ip))`: the values in no subnet. */
  function NonExempt(values: seq<string>, subnets: seq<string>, lib: Ipv4Library): (r: seq<string>)
    ensures |r| <= |values|
    ensures forall x :: x in r <==> x in values && !IsExempt(x, subnets, lib)
  {
    if |values| == 0 then []
    else if IsExempt(values[0], subnets, lib) then NonExempt(values[1..], subnets, lib)
    else [values[0]] + NonExempt(values[1..], subnets, lib)
  }

  /** The values the filter removes, in order. */
  function Exempted(values: seq<string>, subnets: seq<string>, lib: Ipv4Library): seq<string>
  {
    if |values| == 0 then []
    else if IsExempt(values[0], subnets, lib) then [values[0]] + Exempted(values[1..], subnets, lib)
    else Exempted(values[1..], subnets, lib)
  }

  /** The survivors keep their relative order. */
  lemma {:induction false} NonExemptIsSubsequence(values: seq<string>, subnets: seq<string>, lib: Ipv4Library)
    ensures IsSubsequence(NonExempt(values, subnets, lib), values)
  {
    if |values| > 0 {
      NonExemptIsSubsequence(values[1..], subnets, lib);
      var rest := NonExempt(values[1..], subnets, lib);
      if !IsExempt(values[0], subnets, lib) {
        assert ([values[0]] + rest)[1..] == rest;
      } else {
        SubsequenceOfTail(rest, values);
      }
    }
  }

  lemma {:induction false} SubsequenceOfTail<T>(a: seq<T>, b: seq<T>)
    requires |b| > 0 && IsSubsequence(a, b[1..])
    ensures IsSubsequence(a, b)
    decreases |b|, 0
  {
    if |a| > 0 && a[0] == b[0] {
      if |b| > 1 {
        SubsequenceDropHead(a, b[1..]);
      }
    }
  }

  lemma {:induction false} SubsequenceDropHead<T>(a: seq<T>, b: seq<T>)
    requires |a| > 0 && IsSubsequence(a, b)
    ensures IsSubsequence(a[1..], b)
    decreases |b|, 1
  {
    if |b| > 0 {
      if a[0] == b[0] {
        SubsequenceOfTail(a[1..], b);
      } else {
        SubsequenceDropHead(a, b[1..]);
        SubsequenceOfTail(a[1..], b);
      }
    }
  }

  /** Every value is either kept or removed: the number removed is
      `|values| - |kept|`. */
  lemma {:induction false} FilterPartition(values: seq<string>, subnets: seq<string>, lib: Ipv4Library)
    ensures |NonExempt(values, subnets, lib)| + |Exempted(values, subnets, lib)| == |values|
    ensures forall x :: x in Exempted(values, subnets, lib) <==> x in values && IsExempt(x, subnets, lib)
  {
    if |values| > 0 {
      FilterPartition(values[1..], subnets, lib);
    }
  }

  /** `new Address4(s)` throws on the first subnet it cannot parse. */
  datatype FilterError = InvalidSubnet(subnet: string)

  function FirstInvalidSubnet(subnets: seq<string>, lib: Ipv4Library): (r: Option<string>)
    ensures r.None? <==> AllAddresses(subnets, lib)
    ensures r.Some? ==> exists i :: (0 <= i < |subnets| && subnets[i] == r.value && !lib.isAddress(r.value)
      && forall j :: 0 <= j < i ==> lib.isAddress(subnets[j]))
  {
    if |subnets| == 0 then None
    else if !lib.isAddress(subnets[0]) then Some(subnets[0])
    else
      var r := FirstInvalidSubnet(subnets[1..], lib);
      if r.Some? then
        ghost var i :| 0 <= i < |subnets[1..]| && subnets[1..][i] == r.value && !lib.isAddress(r.value)
          && forall j :: 0 <= j < i ==> lib.isAddress(subnets[1..][j]);
        assert subnets[i + 1] == r.value;
        r
      else r
  }

  /** `filterExemptValues(values, exemptSubnets)`. */
  function FilterExemptValues(values: seq<string>, exemptSubnets: Option<seq<string>>, lib: Ipv4Library)
    : (r: Result<seq<string>, FilterError>)
    // the guard: values that are not all addresses pass through untouched
    ensures !AllAddresses(values, lib) ==> r == Ok(values)
    // no subnets configured: nothing is removed
    ensures AllAddresses(values, lib) && (exemptSubnets.None? || exemptSubnets == Some([])) ==> r == Ok(values)
    // otherwise a subnet the library cannot parse is fatal
    ensures r.Err? <==> (AllAddresses(values, lib) && exemptSubnets.Some? &&
      !AllAddresses(exemptSubnets.value, lib))
    ensures r.Err? ==> r.error.subnet in exemptSubnets.value
    // and the subnet reported is the first one the library rejects
    ensures r.Err? ==> FirstInvalidSubnet(exemptSubnets.value, lib) == Some(r.error.subnet)
    // and the survivors are exactly the values in no subnet
    ensures r.Ok? && AllAddresses(values, lib) && exemptSubnets.Some? ==>
      forall x :: x in r.value <==> x in values && !IsExempt(x, exemptSubnets.value, lib)
    // exactly the filter, so repeated values are kept or removed together
    ensures r.Ok? && AllAddresses(values, lib) && exemptSubnets.Some? && exemptSubnets.value != [] ==>
      r.value == NonExempt(values, exemptSubnets.value, lib)
  {
    if !AllAddresses(values, lib) then Ok(values)
    else if exemptSubnets.None? || |exemptSubnets.value| == 0 then
      assert forall x :: !IsExempt(x, exemptSubnets.GetOr([]), lib);
      Ok(values)
    else
      match FirstInvalidSubnet(exemptSubnets.value, lib)
      case Some(s) => Err(InvalidSubnet(s))
      case None => Ok(NonExempt(values, exemptSubnets.value, lib))
  }

  /** Whatever the filter returns keeps the order of the input and never
      adds a value. */
  lemma FilterKeepsOrder(values: seq<string>, exemptSubnets: Option<seq<string>>, lib: Ipv4Library)
    requires FilterExemptValues(values, exemptSubnets, lib).Ok?
    ensures IsSubsequence(FilterExemptValues(values, exemptSubnets, lib).value, values)
    ensures |FilterExemptValues(values, exemptSubnets, lib).value| <= |values|
  {
    var r := FilterExemptValues(values, exemptSubnets, lib).value;
    if r == values {
      SubsequenceReflexive(values);
    } else {
      NonExemptIsSubsequence(values, exemptSubnets.value, lib);
    }
  }

  lemma {:induction false} SubsequenceReflexive<T>(a: seq<T>)
    ensures IsSubsequence(a, a)
  {
    if |a| > 0 {
      SubsequenceReflexive(a[1..]);
    }
  }

  /** Cutting a subsequence short leaves a subsequence. */
  lemma {:induction false} SubsequencePrefix<T>(a: seq<T>, k: nat, b: seq<T>)
    requires k <= |a| && IsSubsequence(a, b)
    ensures IsSubsequence(a[..k], b)
    decreases |b|
  {
    if k > 0 && |b| > 0 {
      if a[0] == b[0] {
        assert a[..k][1..] == a[1..][..k - 1];
        SubsequencePrefix(a[1..], k - 1, b[1..]);
      } else {
        SubsequencePrefix(a, k, b[1..]);
      }
    }
  }

  /** Filtering examples, with a library that knows two
      addresses, one subnet, and that the first address lies in it. */
  lemma FilterExamples()
    ensures var lib := Ipv4Library(
        s => s == "10.0.0.5" || s == "8.8.8.8" || s == "10.0.0.0/8",
        (ip, net) => ip == "10.0.0.5" && net == "10.0.0.0/8");
      && FilterExemptValues(["host-a", "host-b"], Some(["10.0.0.0/8"]), lib) == Ok(["host-a", "host-b"])
      && FilterExemptValues(["10.0.0.5", "8.8.8.8"], Some(["10.0.0.0/8"]), lib) == Ok(["8.8.8.8"])
  {
    var lib := Ipv4Library(
      s => s == "10.0.0.5" || s == "8.8.8.8" || s == "10.0.0.0/8",
      (ip, net) => ip == "10.0.0.5" && net == "10.0.0.0/8");
    assert !lib.isAddress(["host-a", "host-b"][0]) by {
      assert "host-a"[0] != "10.0.0.5"[0] && "host-a"[0] != "8.8.8.8"[0] && "host-a"[0] != "10.0.0.0/8"[0];
    }
    var values := ["10.0.0.5", "8.8.8.8"];
    assert IsExempt(values[0], ["10.0.0.0/8"], lib) by {
      assert lib.inSubnet(values[0], ["10.0.0.0/8"][0]);
    }
    assert !IsExempt(values[1], ["10.0.0.0/8"], lib) by {
      assert values[1][0] != "10.0.0.5"[0];
    }
    assert values[1..][1..] == [];
    assert NonExempt(values, ["10.0.0.0/8"], lib) == ["8.8.8.8"];
  }
}
