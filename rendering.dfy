/**
  Rendering of the collected entries into the one generated source file: a
  fixed C# template whose dictionary initializer lists every entry as
  `{"name", "description"}`, the entries joined by ", " in list order.
 */
module Rendering {
  import opened Wrappers
  import opened Collection

  /** The hint name under which the source is registered. */
  const SourceName: string := "AppExtension.generated.cs"

  /** The template text before the initializer entries (the verbatim string starts with a line break). */
  const Header: string :=
    "\nusing app;\nusing System.Collections;\n\nnamespace demo.generated;\n\n"
    + "public static class AppExtension\n{\n"
    + "    public static IDictionary<string, string> ListMethodDescriptions(this App app)\n    {\n"
    + "        return new Dictionary<string, string>\n        {\n            "

  /** The template text after the initializer entries. */
  const Footer: string := "\n        };\n    }\n}\n"

  /** The separator given to `string.Join`. */
  const Separator: string := ", "

  /** A generated source: its hint name and its text. */
  datatype Source = Source(hintName: string, text: string)

  /** One initializer element; the name is inserted as it is, the description is already escaped. */
  function EntryLiteral(e: Entry): string
  {
    "{\"" + e.methodName + "\", \"" + e.description + "\"}"
  }

  /** `string.Join(separator, parts)`: the parts in order, the separator between neighbours. */
  function Join(separator: string, parts: seq<string>): string
  {
    if parts == [] then ""
    else if |parts| == 1 then parts[0]
    else parts[0] + separator + Join(separator, parts[1..])
  }

  /** `types.Select(...)`: the literal of every entry, in list order. */
  function Literals(es: seq<Entry>): seq<string>
  {
    seq(|es|, k requires 0 <= k < |es| => EntryLiteral(es[k]))
  }

  /** The initializer body: the entry literals joined by ", ". */
  function Body(es: seq<Entry>): string
  {
    Join(Separator, Literals(es))
  }

  /** The whole text of the generated source. */
  function Render(es: seq<Entry>): string
  {
    Header + Body(es) + Footer
  }

  /**
    The `types.Any()` decision and the `AddSource` arguments: no source for an
    empty list, otherwise the rendered text under the fixed name.
   */
  function Emit(es: seq<Entry>): (r: Option<Source>)
    ensures r.None? <==> es == []
    ensures r.Some? ==> r.value.hintName == SourceName && r.value.text == Render(es)
  {
    if |es| > 0 then Some(Source(SourceName, Render(es))) else None
  }

  /** Where part `k` starts in the joined text: all earlier parts, each with its separator. */
  function Offset(separator: string, parts: seq<string>, k: nat): nat
    requires k <= |parts|
  {
    if k == 0 then 0 else |parts[0]| + |separator| + Offset(separator, parts[1..], k - 1)
  }

  /** A slice of `a + b` lying within `b` is a slice of `b`. */
  lemma SliceRight(a: string, b: string, i: int, j: int)
    requires |a| <= i <= j <= |a| + |b|
    ensures (a + b)[i..j] == b[i - |a|..j - |a|]
  {
  }

  /** A joined text of at least two parts is the first part, the separator, and the rest joined. */
  lemma JoinCons(separator: string, parts: seq<string>)
    requires |parts| > 1
    ensures Join(separator, parts) == (parts[0] + separator) + Join(separator, parts[1..])
  {
  }

  /** The joined text ends exactly where its last part ends, so every part fits inside it. */
  lemma {:induction false} JoinLength(separator: string, parts: seq<string>)
    requires parts != []
    ensures Offset(separator, parts, |parts| - 1) + |parts[|parts| - 1]| == |Join(separator, parts)|
    decreases |parts|
  {
    if |parts| > 1 {
      JoinCons(separator, parts);
      JoinLength(separator, parts[1..]);
    }
  }

  /** Offsets grow with the index: each part starts after the end of the previous one and its separator. */
  lemma {:induction false} OffsetStep(separator: string, parts: seq<string>, k: nat)
    requires k + 1 < |parts|
    ensures Offset(separator, parts, k + 1) == Offset(separator, parts, k) + |parts[k]| + |separator|
    decreases k
  {
    if k > 0 {
      OffsetStep(separator, parts[1..], k - 1);
    }
  }

  /** The joined text holds part `k` at its offset. */
  lemma {:induction false} JoinAt(separator: string, parts: seq<string>, k: nat)
    requires k < |parts|
    ensures Offset(separator, parts, k) + |parts[k]| <= |Join(separator, parts)|
    ensures Join(separator, parts)[Offset(separator, parts, k)..Offset(separator, parts, k) + |parts[k]|] == parts[k]
    decreases k
  {
    if |parts| > 1 {
      var head, rest := parts[0] + separator, Join(separator, parts[1..]);
      JoinCons(separator, parts);
      if k > 0 {
        JoinAt(separator, parts[1..], k - 1);
        var o' := Offset(separator, parts[1..], k - 1);
        SliceRight(head, rest, |head| + o', |head| + o' + |parts[k]|);
      } else {
        assert (head + rest)[..|parts[0]|] == head[..|parts[0]|];
      }
    }
  }

  /** In the joined text every part but the first directly follows a separator. */
  lemma {:induction false} SeparatorBefore(separator: string, parts: seq<string>, k: nat)
    requires 0 < k < |parts|
    ensures |separator| <= Offset(separator, parts, k) <= |Join(separator, parts)|
    ensures Join(separator, parts)[Offset(separator, parts, k) - |separator|..Offset(separator, parts, k)] == separator
    decreases k
  {
    JoinAt(separator, parts, k);
    var head, rest := parts[0] + separator, Join(separator, parts[1..]);
    JoinCons(separator, parts);
    if k == 1 {
      assert (head + rest)[|parts[0]|..|head|] == head[|parts[0]|..];
    } else {
      SeparatorBefore(separator, parts[1..], k - 1);
      var o' := Offset(separator, parts[1..], k - 1);
      SliceRight(head, rest, |head| + o' - |separator|, |head| + o');
    }
  }

  /** Joining two non-empty lists of parts puts one separator between their joined texts. */
  lemma {:induction false} JoinAppend(separator: string, a: seq<string>, b: seq<string>)
    requires a != [] && b != []
    ensures Join(separator, a + b) == Join(separator, a) + separator + Join(separator, b)
    decreases |a|
  {
    assert (a + b)[0] == a[0];
    assert (a + b)[1..] == a[1..] + b;
    if |a| > 1 {
      JoinAppend(separator, a[1..], b);
    }
  }

  /** In `h + b + f`, the slices within `b` are slices of `b`, and `h` and `f` stand at the ends. */
  lemma Framed(h: string, b: string, f: string, i: int, j: int)
    requires 0 <= i <= j <= |b|
    ensures (h + b + f)[..|h|] == h
    ensures (h + b + f)[|h + b + f| - |f|..] == f
    ensures (h + b + f)[|h| + i..|h| + j] == b[i..j]
  {
    assert h + b + f == h + (b + f);
    SliceRight(h, b + f, |h| + i, |h| + j);
    assert (b + f)[i..j] == b[i..j];
  }

  /** Layout of a joined text placed between a header and a footer. */
  lemma FramedJoinAt(h: string, f: string, separator: string, parts: seq<string>, k: nat)
    requires k < |parts|
    ensures var text, o := h + Join(separator, parts) + f, |h| + Offset(separator, parts, k);
      && text[..|h|] == h
      && text[|text| - |f|..] == f
      && o + |parts[k]| <= |text| - |f|
      && text[o..o + |parts[k]|] == parts[k]
      && (k > 0 ==> |h| <= o - |separator| && text[o - |separator|..o] == separator)
      && (k == |parts| - 1 ==> o + |parts[k]| == |text| - |f|)
  {
    JoinAt(separator, parts, k);
    var body, o := Join(separator, parts), Offset(separator, parts, k);
    Framed(h, body, f, o, o + |parts[k]|);
    if k > 0 {
      SeparatorBefore(separator, parts, k);
      Framed(h, body, f, o - |separator|, o);
    }
    if k == |parts| - 1 {
      JoinLength(separator, parts);
    }
  }

  /**
    The generated text is the header, then the literal of every entry in list
    order (`Literals(es)[k]` is `EntryLiteral(es[k])`), a separator before each
    but the first, the last one ending right before the footer.
   */
  lemma RenderLayout(es: seq<Entry>, k: nat)
    requires k < |es|
    ensures var text, o, lit := Render(es), |Header| + Offset(Separator, Literals(es), k), Literals(es)[k];
      && text[..|Header|] == Header
      && text[|text| - |Footer|..] == Footer
      && o + |lit| <= |text| - |Footer|
      && text[o..o + |lit|] == lit
      && (k > 0 ==> |Header| <= o - |Separator| && text[o - |Separator|..o] == Separator)
      && (k == |es| - 1 ==> o + |lit| == |text| - |Footer|)
  {
    assert |Literals(es)| == |es|;
    FramedJoinAt(Header, Footer, Separator, Literals(es), k);
  }
}
