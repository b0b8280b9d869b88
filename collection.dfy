/**
  The collection loop of the generator: the method symbols handed over by the
  host (some of them null) are scanned in order, and every method carrying a
  `System.ComponentModel.DescriptionAttribute` yields one entry made of the
  method's name and the escaped first constructor argument of that attribute.
 */
module Collection {
  import opened Wrappers
  import opened Escaping

  /** The display name of the marker attribute class. */
  const Marker: string := "System.ComponentModel.DescriptionAttribute"

  /**
    An attribute application: the display string of its class (absent when the
    class did not resolve) and its constructor arguments, already converted to
    strings (absent for a null value).
   */
  datatype Attribute = Attribute(attributeClass: Option<string>, constructorArguments: seq<Option<string>>)

  /** A method symbol: its name and its attributes in declaration order. */
  datatype Method = Method(name: string, attributes: seq<Attribute>)

  /** One collected pair: the method name and its escaped description. */
  datatype Entry = Entry(methodName: string, description: string)

  /** The exceptions the loop body can raise, with the method being processed. */
  datatype Fault =
    | IndexOutOfRange(methodName: string)  // the marker has no constructor argument 0
    | NullReference(methodName: string)    // constructor argument 0 holds null

  predicate IsMarker(a: Attribute)
  {
    a.attributeClass == Some(Marker)
  }

  ghost predicate HasMarker(m: Method)
  {
    exists k :: 0 <= k < |m.attributes| && IsMarker(m.attributes[k])
  }

  /** Position `j` holds a marker and no attribute before it is one. */
  ghost predicate IsFirstMarkerAt(attrs: seq<Attribute>, j: int)
  {
    0 <= j < |attrs| && IsMarker(attrs[j]) && forall k :: 0 <= k < j ==> !IsMarker(attrs[k])
  }

  /** `FirstOrDefault` over the attributes with the marker test; `None` plays the default. */
  function FirstMarker(attrs: seq<Attribute>): (r: Option<Attribute>)
    ensures r.None? <==> forall k :: 0 <= k < |attrs| ==> !IsMarker(attrs[k])
    ensures r.Some? ==> r.value in attrs && IsMarker(r.value)
  {
    if attrs == [] then None
    else if IsMarker(attrs[0]) then Some(attrs[0])
    else
      assert forall k :: 1 <= k < |attrs| ==> attrs[k] == attrs[1..][k - 1];
      FirstMarker(attrs[1..])
  }

  /** The attribute found is the first marker: later markers are never looked at. */
  lemma {:induction false} FirstMarkerAt(attrs: seq<Attribute>, j: int)
    requires IsFirstMarkerAt(attrs, j)
    ensures FirstMarker(attrs) == Some(attrs[j])
    decreases j
  {
    if j > 0 {
      assert !IsMarker(attrs[0]);
      assert IsFirstMarkerAt(attrs[1..], j - 1) by {
        forall k | 0 <= k < j - 1 ensures !IsMarker(attrs[1..][k]) {
          assert attrs[1..][k] == attrs[k + 1];
        }
      }
      FirstMarkerAt(attrs[1..], j - 1);
    }
  }

  /** A method that carries the marker has a first marker. */
  lemma {:induction false} FirstMarkerExists(attrs: seq<Attribute>) returns (j: int)
    requires exists k :: 0 <= k < |attrs| && IsMarker(attrs[k])
    ensures IsFirstMarkerAt(attrs, j)
    decreases |attrs|
  {
    if IsMarker(attrs[0]) {
      j := 0;
    } else {
      var k :| 0 <= k < |attrs| && IsMarker(attrs[k]);
      assert attrs[1..][k - 1] == attrs[k];
      var j' := FirstMarkerExists(attrs[1..]);
      j := j' + 1;
      forall i | 0 <= i < j ensures !IsMarker(attrs[i]) {
        if i > 0 {
          assert attrs[i] == attrs[1..][i - 1];
        }
      }
    }
  }

  /**
    The body of the `foreach` loop for one symbol: `Success(None)` when it is
    skipped, `Success(Some(e))` when it adds `e`, `Failure` when it throws.
   */
  function Contribution(m: Option<Method>): Result<Option<Entry>, Fault>
  {
    match m
    case None => Success(None)
    case Some(sym) =>
      match FirstMarker(sym.attributes)
      case None => Success(None)
      case Some(attr) =>
        if |attr.constructorArguments| == 0 then Failure(IndexOutOfRange(sym.name))
        else match attr.constructorArguments[0]
          case None => Failure(NullReference(sym.name))
          case Some(v) => Success(Some(Entry(sym.name, Escape(v))))
  }

  /** What a method carrying a marker contributes is decided by its first marker alone. */
  lemma ContributionOfMarked(m: Method, j: int)
    requires IsFirstMarkerAt(m.attributes, j)
    ensures var args := m.attributes[j].constructorArguments;
      Contribution(Some(m)) ==
        if |args| == 0 then Failure(IndexOutOfRange(m.name))
        else if args[0].None? then Failure(NullReference(m.name))
        else Success(Some(Entry(m.name, Escape(args[0].value))))
  {
    FirstMarkerAt(m.attributes, j);
  }

  /** A symbol is skipped silently exactly when it is null or carries no marker. */
  lemma ContributionSkips(m: Option<Method>)
    ensures Contribution(m) == Success(None) <==> m.None? || !HasMarker(m.value)
  {
  }

  /**
    The list the loop has built after the symbols `ms`, or the fault that
    stopped it. Defined on the last symbol, as the loop extends the list.
   */
  function Collected(ms: seq<Option<Method>>): Result<seq<Entry>, Fault>
    decreases |ms|
  {
    if ms == [] then Success([])
    else
      match Collected(ms[..|ms| - 1])
      case Failure(f) => Failure(f)
      case Success(es) =>
        match Contribution(ms[|ms| - 1])
        case Failure(f) => Failure(f)
        case Success(None) => Success(es)
        case Success(Some(e)) => Success(es + [e])
  }

  /** The loop of `DoGenerate`, appending to a local list; a fault ends it. */
  method Collect(methods: seq<Option<Method>>) returns (r: Result<seq<Entry>, Fault>)
    ensures r == Collected(methods)
  {
    var types: seq<Entry> := [];
    for i := 0 to |methods|
      invariant Collected(methods[..i]) == Success(types)
    {
      assert methods[..i + 1][..i] == methods[..i];
      var c := Contribution(methods[i]);
      match c {
        case Failure(f) =>
          CollectedFaultSticks(methods, i + 1);
          return Failure(f);
        case Success(None) =>
        case Success(Some(e)) =>
          types := types + [e];
      }
    }
    assert methods[..|methods|] == methods;
    return Success(types);
  }

  /** Once a prefix has faulted, the whole run reports that same fault. */
  lemma {:induction false} CollectedFaultSticks(ms: seq<Option<Method>>, n: nat)
    requires n <= |ms| && Collected(ms[..n]).Failure?
    ensures Collected(ms) == Collected(ms[..n])
    decreases |ms| - n
  {
    if n == |ms| {
      assert ms[..n] == ms;
    } else {
      assert ms[..n + 1][..n] == ms[..n];
      CollectedFaultSticks(ms, n + 1);
    }
  }

  /** A single symbol is collected as what it contributes. */
  lemma CollectedSingle(m: Option<Method>)
    ensures Collected([m]) ==
      match Contribution(m)
      case Failure(f) => Failure(f)
      case Success(None) => Success([])
      case Success(Some(e)) => Success([e])
  {
    assert [m][..0] == [];
    assert Collected([m][..0]) == Success([]);
    match Contribution(m)
    case Failure(f) =>
    case Success(None) =>
    case Success(Some(e)) =>
      assert [] + [e] == [e];
  }

  /**
    Reference definition of which symbols contribute: the non-null methods
    that carry the marker, in input order, duplicates included.
   */
  ghost function Matching(ms: seq<Option<Method>>): seq<Method>
  {
    if ms == [] then []
    else (if ms[0].Some? && HasMarker(ms[0].value) then [ms[0].value] else []) + Matching(ms[1..])
  }

  /** The filter keeps input order: it distributes over concatenation. */
  lemma {:induction false} MatchingAppend(a: seq<Option<Method>>, b: seq<Option<Method>>)
    ensures Matching(a + b) == Matching(a) + Matching(b)
    decreases |a|
  {
    if a == [] {
      assert a + b == b;
    } else {
      assert (a + b)[0] == a[0];
      assert (a + b)[1..] == a[1..] + b;
      MatchingAppend(a[1..], b);
    }
  }

  /** A method is kept by the filter exactly when it is among the non-null symbols and carries the marker. */
  lemma {:induction false} MatchingMembers(ms: seq<Option<Method>>, m: Method)
    ensures m in Matching(ms) <==> Some(m) in ms && HasMarker(m)
    decreases |ms|
  {
    if ms != [] {
      MatchingMembers(ms[1..], m);
      assert ms == [ms[0]] + ms[1..];
    }
  }

  /** No symbol faults: every symbol at a position below `n` is processed without an exception. */
  ghost predicate NoFaultBefore(ms: seq<Option<Method>>, n: int)
  {
    forall k :: 0 <= k < n && k < |ms| ==> Contribution(ms[k]).Success?
  }

  /**
    Without faults the collected list has one entry per matching method, in
    the same order, each being what that method contributes.
   */
  lemma {:induction false} CollectedWithoutFault(ms: seq<Option<Method>>)
    requires NoFaultBefore(ms, |ms|)
    ensures Collected(ms).Success?
    ensures |Collected(ms).value| == |Matching(ms)|
    ensures forall k :: 0 <= k < |Matching(ms)| ==>
      Contribution(Some(Matching(ms)[k])) == Success(Some(Collected(ms).value[k]))
    decreases |ms|
  {
    if ms != [] {
      var init, last := ms[..|ms| - 1], ms[|ms| - 1];
      assert NoFaultBefore(init, |init|) by {
        forall k | 0 <= k < |init| ensures Contribution(init[k]).Success? {
          assert init[k] == ms[k];
        }
      }
      CollectedWithoutFault(init);
      assert ms == init + [last];
      MatchingAppend(init, [last]);
      assert Matching([last]) == if last.Some? && HasMarker(last.value) then [last.value] else [];
      ContributionSkips(last);
    }
  }

  /** The first symbol that faults decides the outcome; symbols after it are never looked at. */
  lemma {:induction false} CollectedFirstFault(ms: seq<Option<Method>>, i: nat)
    requires i < |ms| && Contribution(ms[i]).Failure? && NoFaultBefore(ms, i)
    ensures Collected(ms) == Failure(Contribution(ms[i]).error)
    decreases |ms|
  {
    var init := ms[..|ms| - 1];
    if i == |ms| - 1 {
      assert NoFaultBefore(init, |init|) by {
        forall k | 0 <= k < |init| ensures Contribution(init[k]).Success? {
          assert init[k] == ms[k];
        }
      }
      CollectedWithoutFault(init);
    } else {
      assert init[i] == ms[i];
      assert NoFaultBefore(init, i) by {
        forall k | 0 <= k < i ensures Contribution(init[k]).Success? {
          assert init[k] == ms[k];
        }
      }
      CollectedFirstFault(init, i);
    }
  }

  /** The loop faults exactly when some symbol's body throws. */
  lemma {:induction false} CollectedFailsIffFault(ms: seq<Option<Method>>)
    ensures Collected(ms).Failure? <==> exists i :: 0 <= i < |ms| && Contribution(ms[i]).Failure?
    decreases |ms|
  {
    if ms != [] {
      var init := ms[..|ms| - 1];
      CollectedFailsIffFault(init);
      if exists i :: 0 <= i < |init| && Contribution(init[i]).Failure? {
        var i :| 0 <= i < |init| && Contribution(init[i]).Failure?;
        assert ms[i] == init[i];
      } else if Contribution(ms[|ms| - 1]).Success? {
        forall i | 0 <= i < |ms| ensures Contribution(ms[i]).Success? {
          if i < |init| {
            assert ms[i] == init[i];
          }
        }
      }
    }
  }

  /** Appending symbols appends their entries: nothing is sorted, merged or dropped. */
  lemma {:induction false} CollectedAppend(a: seq<Option<Method>>, b: seq<Option<Method>>, ea: seq<Entry>)
    requires Collected(a) == Success(ea)
    ensures Collected(a + b) ==
      match Collected(b)
      case Failure(f) => Failure(f)
      case Success(eb) => Success(ea + eb)
    decreases |b|
  {
    if b == [] {
      assert a + b == a;
      assert ea + [] == ea;
    } else {
      var binit := b[..|b| - 1];
      assert (a + b)[..|a + b| - 1] == a + binit;
      assert (a + b)[|a + b| - 1] == b[|b| - 1];
      CollectedAppend(a, binit, ea);
      match Collected(binit)
      case Failure(f) =>
      case Success(eb) =>
        match Contribution(b[|b| - 1])
        case Failure(f) =>
        case Success(None) =>
        case Success(Some(e)) =>
          assert ea + eb + [e] == ea + (eb + [e]);
    }
  }

  /** Duplicates are kept: the same symbols twice give the same entries twice. */
  lemma CollectedKeepsDuplicates(ms: seq<Option<Method>>, es: seq<Entry>)
    requires Collected(ms) == Success(es)
    ensures Collected(ms + ms) == Success(es + es)
  {
    CollectedAppend(ms, ms, es);
  }
}
