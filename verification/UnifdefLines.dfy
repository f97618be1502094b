/** Conditional inclusion as section 6.10.1 of ISO/IEC 9899:1999 defines it: which plain lines a
    file with #if/#elif/#else/#endif lines selects. */
module UnifdefLines {
  import opened Options

  /** C stands for the controlling condition written on the line. */
  datatype Line<+C> = Plain(text: string) | If(cond: C) | Elif(cond: C) | Else | Endif

  /** An open section: is the current group selected by its own conditions, has any group of the
      section been selected, has #else been seen. */
  datatype Section = Section(active: bool, taken: bool, inElse: bool)

  datatype Reader = Reader(open: seq<Section>, text: seq<string>)

  /** Plain lines are selected when the current group of every open section is. */
  predicate Selecting(open: seq<Section>) {
    forall k :: 0 <= k < |open| ==> open[k].active
  }

  function Top<T>(s: seq<T>): T
    requires s != []
  {
    s[|s| - 1]
  }

  function Below<T>(s: seq<T>): seq<T>
    requires s != []
  {
    s[..|s| - 1]
  }

  /** One line; None when the directive is not allowed there. */
  function Read<C>(r: Reader, line: Line<C>, truth: C -> bool): Option<Reader> {
    match line
    case Plain(t) => Some(r.(text := if Selecting(r.open) then r.text + [t] else r.text))
    case If(c) => Some(r.(open := r.open + [Section(truth(c), truth(c), false)]))
    case Elif(c) =>
      if r.open == [] || Top(r.open).inElse then None
      else
        var s := Top(r.open);
        Some(r.(open := Below(r.open) + [Section(!s.taken && truth(c), s.taken || truth(c), false)]))
    case Else =>
      if r.open == [] || Top(r.open).inElse then None
      else
        Some(r.(open := Below(r.open) + [Section(!Top(r.open).taken, true, true)]))
    case Endif =>
      if r.open == [] then None else Some(r.(open := Below(r.open)))
  }

  /** The state after all lines; None as soon as a directive is misplaced. */
  function ReadAll<C>(lines: seq<Line<C>>, truth: C -> bool): Option<Reader> {
    if lines == [] then Some(Reader([], []))
    else
      var r := ReadAll(Below(lines), truth);
      if r.None? then None else Read(r.value, lines[|lines| - 1], truth)
  }

  lemma ReadAllSnoc<C>(lines: seq<Line<C>>, line: Line<C>, truth: C -> bool)
    ensures ReadAll(lines + [line], truth)
         == (var r := ReadAll(lines, truth); if r.None? then None else Read(r.value, line, truth))
  {
    assert Below(lines + [line]) == lines;
  }

  /** A complete file: every section closed. */
  predicate Complete<C>(lines: seq<Line<C>>, truth: C -> bool) {
    var r := ReadAll(lines, truth);
    r.Some? && r.value.open == []
  }

  function Selected<C>(lines: seq<Line<C>>, truth: C -> bool): seq<string>
    requires Complete(lines, truth)
  {
    ReadAll(lines, truth).value.text
  }
}
