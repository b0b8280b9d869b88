/**
  The generator's entry points: `DoGenerate` runs the collection loop and,
  when it found something, registers the rendered source with the host's
  production context; the output callback hands it the method symbols and
  drops the compilation.
 */
module Generator {
  import opened Wrappers
  import opened Escaping
  import opened Collection
  import opened Rendering

  /**
    The outcome of one run as a value: the fault that aborted it, or the
    source it registers (`None` when it registers nothing).
   */
  function Generate(methods: seq<Option<Method>>): Result<Option<Source>, Fault>
  {
    match Collected(methods)
    case Failure(f) => Failure(f)
    case Success(types) => Success(Emit(types))
  }

  /** The host's sink for generated sources, reduced to the list of sources added so far. */
  class SourceProductionContext {
    var sources: seq<Source>

    constructor ()
      ensures sources == []
    {
      sources := [];
    }

    method AddSource(hintName: string, text: string)
      modifies this
      ensures sources == old(sources) + [Source(hintName, text)]
    {
      sources := sources + [Source(hintName, text)];
    }
  }

  /** Registers the rendered template under the fixed hint name. */
  method RegisterAppExtension(context: SourceProductionContext, types: seq<Entry>)
    modifies context
    ensures context.sources == old(context.sources) + [Source(SourceName, Render(types))]
  {
    context.AddSource(SourceName, Render(types));
  }

  /**
    Collects the entries and registers one source when there is at least one.
    A fault thrown by the loop is returned; nothing is registered then.
   */
  method DoGenerate(methods: seq<Option<Method>>, context: SourceProductionContext) returns (fault: Option<Fault>)
    modifies context
    ensures match Generate(methods)
      case Failure(f) => fault == Some(f) && context.sources == old(context.sources)
      case Success(None) => fault == None && context.sources == old(context.sources)
      case Success(Some(source)) => fault == None && context.sources == old(context.sources) + [source]
  {
    var collected := Collect(methods);
    match collected {
      case Failure(f) =>
        return Some(f);
      case Success(types) =>
        if |types| > 0 {
          RegisterAppExtension(context, types);
        }
        return None;
    }
  }

  /**
    The callback given to `RegisterSourceOutput`: of the combined input
    (compilation, collected symbols) only the symbols reach `DoGenerate`.
   */
  method OnSourceOutput<Compilation>(context: SourceProductionContext, combined: (Compilation, seq<Option<Method>>))
    returns (fault: Option<Fault>)
    modifies context
    ensures match Generate(combined.1)
      case Failure(f) => fault == Some(f) && context.sources == old(context.sources)
      case Success(None) => fault == None && context.sources == old(context.sources)
      case Success(Some(source)) => fault == None && context.sources == old(context.sources) + [source]
  {
    fault := DoGenerate(combined.1, context);
  }

  /**
    Without faults, a run registers a source exactly when some symbol is a
    method carrying the marker, and the source is always the one fixed name.
   */
  lemma GenerateEmitsIffMarked(methods: seq<Option<Method>>)
    requires NoFaultBefore(methods, |methods|)
    ensures Generate(methods).Success?
    ensures Generate(methods).value.Some? <==> exists i :: 0 <= i < |methods| && methods[i].Some? && HasMarker(methods[i].value)
    ensures Generate(methods).value.Some? ==> Generate(methods).value.value.hintName == SourceName
  {
    CollectedWithoutFault(methods);
    var matching := Matching(methods);
    if exists i :: 0 <= i < |methods| && methods[i].Some? && HasMarker(methods[i].value) {
      var i :| 0 <= i < |methods| && methods[i].Some? && HasMarker(methods[i].value);
      MatchingMembers(methods, methods[i].value);
    } else if matching != [] {
      MatchingMembers(methods, matching[0]);
    }
  }

  /** A run aborts exactly when some symbol's loop body throws, and then registers nothing. */
  lemma GenerateFailsIffFault(methods: seq<Option<Method>>)
    ensures Generate(methods).Failure? <==> exists i :: 0 <= i < |methods| && Contribution(methods[i]).Failure?
  {
    CollectedFailsIffFault(methods);
  }

  /** A run without any symbol registers nothing. */
  lemma GenerateEmpty()
    ensures Generate([]) == Success(None)
  {
  }

  /** One described method gives one entry, with its description as it is when it holds no quote. */
  lemma GenerateSingle(name: string, description: string)
    requires '"' !in description
    ensures Generate([Some(Method(name, [Attribute(Some(Marker), [Some(description)])]))])
      == Success(Some(Source(SourceName, Header + "{\"" + name + "\", \"" + description + "\"}" + Footer)))
  {
    var m := Method(name, [Attribute(Some(Marker), [Some(description)])]);
    DescribedMethod(m, description);
    CollectedSingle(Some(m));
    var e := Entry(name, description);
    assert Collected([Some(m)]) == Success([e]);
    assert Literals([e]) == [EntryLiteral(e)];
    assert Body([e]) == EntryLiteral(e);
    assert Generate([Some(m)]) == Success(Emit([e]));
    assert Render([e]) == Header + EntryLiteral(e) + Footer;
    var lit := "{\"" + name + "\", \"" + description + "\"}";
    assert EntryLiteral(e) == lit;
    assert Header + lit + Footer == Header + "{\"" + name + "\", \"" + description + "\"}" + Footer;
  }

  /** A quoted word inside a description, `He said "hi"`, comes out as `He said \"hi\"`. */
  lemma EscapeQuotedWord(before: string, word: string)
    requires '"' !in before && '"' !in word
    ensures Escape(before + Quote + word + Quote) == before + EscapedQuote + word + EscapedQuote
  {
    EscapeAppend(before + Quote + word, Quote);
    EscapeAppend(before + Quote, word);
    EscapeAppend(before, Quote);
    EscapeIdentity(before);
    EscapeIdentity(word);
    EscapeChar('"');
  }

  /** Two methods of the same name both stay in the list, in input order. */
  lemma SameNameKept(name: string, first: string, second: string)
    ensures Collected([Some(Method(name, [Attribute(Some(Marker), [Some(first)])])),
                       Some(Method(name, [Attribute(Some(Marker), [Some(second)])]))])
      == Success([Entry(name, Escape(first)), Entry(name, Escape(second))])
  {
    var a := Method(name, [Attribute(Some(Marker), [Some(first)])]);
    var b := Method(name, [Attribute(Some(Marker), [Some(second)])]);
    ContributionOfMarked(a, 0);
    ContributionOfMarked(b, 0);
    CollectedSingle(Some(a));
    CollectedSingle(Some(b));
    CollectedAppend([Some(a)], [Some(b)], [Entry(name, Escape(first))]);
    assert [Some(a)] + [Some(b)] == [Some(a), Some(b)];
    assert [Entry(name, Escape(first))] + [Entry(name, Escape(second))]
      == [Entry(name, Escape(first)), Entry(name, Escape(second))];
  }

  /** A method whose only attribute is the marker with a quote-free description contributes it unchanged. */
  lemma DescribedMethod(m: Method, description: string)
    requires '"' !in description && m.attributes == [Attribute(Some(Marker), [Some(description)])]
    ensures Contribution(Some(m)) == Success(Some(Entry(m.name, description)))
  {
    EscapeIdentity(description);
    ContributionOfMarked(m, 0);
  }
}
