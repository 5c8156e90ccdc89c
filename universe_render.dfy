/** The universe file written by `src/generate_universe.py`: two comment
    lines, then each group's tickers under a comment block naming the group,
    joined with newlines, stripped, and ended with one newline. */
module UniverseFile {
  import opened Wrappers
  import opened Text
  import opened Seqs
  import opened Universe
  import Ingestion

  // Each header line is a single string; it is split into a head and a tail
  // here only so that proofs can name the line's prefix.
  const TitleHead: string := "# Global equity universe (~1000)"
  const TitleTail: string := " - generated automatically"
  const UsageHead: string := "# One ticker per line."
  const UsageTail: string := " Lines starting with # are comments."
  const Title: string := TitleHead + TitleTail
  const Usage: string := UsageHead + UsageTail
  const Rule: string := "# ========================="

  /** The two lines every universe file starts with. */
  function Header(): seq<string>
  {
    [Title, Usage]
  }

  /** The block opening a group: an empty line and the group's name between rules. */
  function GroupBlock(group: string): seq<string>
  {
    ["", Rule, "# " + group, Rule]
  }

  /** The lines one entry adds, given the group of the entry before it. */
  function EntryLines(e: Entry, current: Option<string>): seq<string>
  {
    (if current != Some(e.group) then GroupBlock(e.group) else []) + [e.ticker]
  }

  /** The group of the last entry of `es`, if any. */
  function LastGroup(es: seq<Entry>): Option<string>
  {
    if es == [] then None else Some(es[|es| - 1].group)
  }

  /** The lines of the entries: a new block whenever the group changes. */
  function Body(es: seq<Entry>): seq<string>
    decreases |es|
  {
    if es == [] then []
    else
      var init := es[..|es| - 1];
      Body(init) + EntryLines(es[|es| - 1], LastGroup(init))
  }

  /** What `f.write("\n".join(lines).strip() + "\n")` puts in the file. */
  function UniverseText(final: seq<Entry>): string
  {
    Strip(JoinLines(Header() + Body(final))) + "\n"
  }

  /** The `lines` loop of `main`, with `current` the group last written. */
  method RenderLines(final: seq<Entry>) returns (lines: seq<string>)
    ensures lines == Header() + Body(final)
  {
    lines := [Title, Usage];
    var current: Option<string> := None;
    var i := 0;
    while i < |final|
      invariant 0 <= i <= |final|
      invariant lines == Header() + Body(final[..i])
      invariant current == LastGroup(final[..i])
    {
      var e := final[i];
      assert final[..i + 1][..i] == final[..i];
      if Some(e.group) != current {
        lines := lines + ["", Rule, "# " + e.group, Rule];
        current := Some(e.group);
      }
      lines := lines + [e.ticker];
      i := i + 1;
    }
    assert final[..i] == final;
  }

  /** `main` of `src/generate_universe.py`: the selection, then the file text;
      no file when a table lacks its symbol column. */
  method GenerateUniverse(fetch: Sources) returns (r: Outcome<string>)
    ensures r.MissingColumn? <==> SelectUniverse(fetch).MissingColumn?
    ensures r.Ok? ==> r.value == UniverseText(SelectUniverse(fetch).value)
  {
    var state := new UniverseState();
    var ok := state.Build(fetch);
    if !ok {
      return MissingColumn;
    }
    var lines := RenderLines(state.final);
    r := Ok(Strip(JoinLines(lines)) + "\n");
  }

  // ---------------------------------------------------------------------------
  // Reading the file back
  // ---------------------------------------------------------------------------

  /** A ticker the file can carry: a line of its own, neither blank nor a
      comment, with no blank space at either end. */
  predicate Writable(t: string)
  {
    |t| > 0 && !IsSpace(t[0]) && !IsSpace(t[|t| - 1]) && t[0] != '#' && NoNewline(t)
  }

  /** Entries whose tickers and group names fit on one line each. */
  predicate Printable(es: seq<Entry>)
  {
    forall e :: e in es ==> Writable(e.ticker) && NoNewline(e.group)
  }

  /** A line that starts with `#` still does once stripped. */
  lemma CommentStaysComment(s: string)
    requires StartsWith(s, '#')
    ensures StartsWith(Strip(s), '#')
  {
    assert !IsSpace(s[0]);
    assert StripLeft(s) == s;
  }

  /** Reading lines is reading each part and concatenating. */
  lemma {:induction false} ReadAppend(a: seq<string>, b: seq<string>)
    ensures Ingestion.UniverseTickers(a + b) == Ingestion.UniverseTickers(a) + Ingestion.UniverseTickers(b)
    decreases |b|
  {
    if b == [] {
      assert a + b == a;
    } else {
      var init := b[..|b| - 1];
      var l := b[|b| - 1];
      assert b == init + [l];
      assert a + b == (a + init) + [l];
      ReadAppend(a, init);
      Ingestion.UniverseTickersSnoc(a + init, l);
      Ingestion.UniverseTickersSnoc(init, l);
      ConcatAssoc(Ingestion.UniverseTickers(a), Ingestion.UniverseTickers(init), [Strip(l)]);
    }
  }

  /** Neither a header line nor a group block yields a ticker. */
  lemma {:induction false} CommentsDropped(ls: seq<string>)
    requires forall l :: l in ls ==> l == "" || StartsWith(l, '#')
    ensures Ingestion.UniverseTickers(ls) == []
    decreases |ls|
  {
    if ls != [] {
      var l := ls[|ls| - 1];
      assert l in ls;
      CommentsDropped(ls[..|ls| - 1]);
      if l != "" {
        CommentStaysComment(l);
      }
    }
  }

  /** A writable ticker on a line of its own reads back as itself. */
  lemma ReadOne(t: string)
    requires Writable(t)
    ensures Ingestion.UniverseTickers([t]) == [t]
  {
    assert [] + [t] == [t];
    StripNoop(t);
    Ingestion.UniverseTickersSnoc([], t);
  }

  /** A group's title line is a one-line comment. */
  lemma TitleLine(group: string)
    requires NoNewline(group)
    ensures StartsWith("# " + group, '#') && NoNewline("# " + group)
  {
    var line := "# " + group;
    forall i | 0 <= i < |line| ensures !IsNewline(line[i]) {
      if i >= 2 { assert line[i] == group[i - 2]; }
    }
  }

  lemma NoLineBreak(s: string)
    requires '\n' !in s && '\r' !in s
    ensures NoNewline(s)
  {
    forall i | 0 <= i < |s| ensures !IsNewline(s[i]) {
      assert s[i] in s;
    }
  }

  lemma TitleHeadPlain()
    ensures StartsWith(TitleHead, '#') && '\n' !in TitleHead && '\r' !in TitleHead
  {
  }

  lemma TitleTailPlain()
    ensures '\n' !in TitleTail && '\r' !in TitleTail
  {
  }

  lemma UsageHeadPlain()
    ensures StartsWith(UsageHead, '#') && '\n' !in UsageHead && '\r' !in UsageHead
  {
  }

  lemma UsageTailPlain()
    ensures '\n' !in UsageTail && '\r' !in UsageTail && UsageTail[|UsageTail| - 1] == '.'
  {
  }

  lemma TitleIsComment()
    ensures StartsWith(Title, '#') && NoNewline(Title)
  {
    TitleHeadPlain();
    TitleTailPlain();
    NoLineBreak(Title);
  }

  lemma UsageIsComment()
    ensures StartsWith(Usage, '#') && NoNewline(Usage) && Usage[|Usage| - 1] == '.'
  {
    UsageHeadPlain();
    UsageTailPlain();
    NoLineBreak(Usage);
  }

  lemma RuleIsComment()
    ensures StartsWith(Rule, '#') && NoNewline(Rule)
  {
    NoLineBreak(Rule);
  }

  /** The fixed lines are one-line comments. */
  lemma FixedLines()
    ensures StartsWith(Title, '#') && NoNewline(Title)
    ensures StartsWith(Usage, '#') && NoNewline(Usage) && Usage[|Usage| - 1] == '.'
    ensures StartsWith(Rule, '#') && NoNewline(Rule)
  {
    TitleIsComment();
    UsageIsComment();
    RuleIsComment();
  }

  lemma BlockLines(group: string)
    requires NoNewline(group)
    ensures forall l :: l in GroupBlock(group) ==> (l == "" || StartsWith(l, '#')) && NoNewline(l)
  {
    FixedLines();
    TitleLine(group);
  }

  /** One entry's lines yield its ticker and nothing else. */
  lemma EntryReadsBack(e: Entry, current: Option<string>)
    requires Writable(e.ticker) && NoNewline(e.group)
    ensures Ingestion.UniverseTickers(EntryLines(e, current)) == [e.ticker]
    ensures forall l :: l in EntryLines(e, current) ==> NoNewline(l)
  {
    var block := if current != Some(e.group) then GroupBlock(e.group) else [];
    assert EntryLines(e, current) == block + [e.ticker];
    assert [] + [e.ticker] == [e.ticker];
    BlockLines(e.group);
    ReadAppend(block, [e.ticker]);
    CommentsDropped(block);
    ReadOne(e.ticker);
  }

  lemma {:induction false} BodyReadsBack(es: seq<Entry>)
    requires Printable(es)
    ensures Ingestion.UniverseTickers(Body(es)) == Tickers(es)
    decreases |es|
  {
    if es != [] {
      var init := es[..|es| - 1];
      var e := es[|es| - 1];
      assert Tickers(es) == Tickers(init) + [e.ticker];
      assert e in es;
      assert Printable(init) by {
        forall x | x in init ensures x in es { }
      }
      BodyReadsBack(init);
      ReadAppend(Body(init), EntryLines(e, LastGroup(init)));
      EntryReadsBack(e, LastGroup(init));
    }
  }

  lemma {:induction false} BodyLines(es: seq<Entry>)
    requires Printable(es)
    ensures forall l :: l in Body(es) ==> NoNewline(l)
    decreases |es|
  {
    if es != [] {
      var init := es[..|es| - 1];
      var e := es[|es| - 1];
      assert e in es;
      assert Printable(init) by {
        forall x | x in init ensures x in es { }
      }
      BodyLines(init);
      EntryReadsBack(e, LastGroup(init));
    }
  }

  /** The last rendered line: the usage line, or the last ticker. */
  lemma LastLine(final: seq<Entry>)
    requires Printable(final)
    ensures var lines := Header() + Body(final);
      var last := lines[|lines| - 1];
      |last| > 0 && !IsSpace(last[|last| - 1])
  {
    var lines := Header() + Body(final);
    if final == [] {
      assert lines == [Title, Usage];
      UsageIsComment();
    } else {
      var e := final[|final| - 1];
      var init := final[..|final| - 1];
      assert Body(final) == Body(init) + EntryLines(e, LastGroup(init));
      assert lines[|lines| - 1] == e.ticker;
      assert e in final;
    }
  }

  /** Every rendered line is a single line. */
  lemma RenderedLines(final: seq<Entry>)
    requires Printable(final)
    ensures var lines := Header() + Body(final);
      forall k :: 0 <= k < |lines| ==> NoNewline(lines[k])
  {
    var lines := Header() + Body(final);
    BodyLines(final);
    TitleIsComment();
    UsageIsComment();
    forall k | 0 <= k < |lines| ensures NoNewline(lines[k]) {
      if k >= 2 { assert lines[k] == Body(final)[k - 2]; assert lines[k] in Body(final); }
    }
  }

  /** Stripping the joined lines removes nothing. */
  lemma StripKeepsText(final: seq<Entry>)
    requires Printable(final)
    ensures Strip(JoinLines(Header() + Body(final))) == JoinLines(Header() + Body(final))
  {
    var lines := Header() + Body(final);
    var text := JoinLines(lines);
    assert lines[0] == Title;
    JoinEnds(lines);
    LastLine(final);
    TitleIsComment();
    assert text[0] == text[..|lines[0]|][0];
    var last := lines[|lines| - 1];
    assert text[|text| - 1] == text[|text| - |last|..][|last| - 1];
    StripNoop(text);
  }

  /** The written text, cut into lines, is the rendered lines plus the empty
      line after the final newline. */
  lemma TextLines(final: seq<Entry>)
    requires Printable(final)
    ensures SplitLines(UniverseText(final)) == Header() + Body(final) + [""]
  {
    StripKeepsText(final);
    RenderedLines(final);
    SplitJoin(Header() + Body(final));
  }

  /** The rendered lines, with the empty line after the final newline,
      yield the tickers in order. */
  lemma RenderedReadsBack(final: seq<Entry>)
    requires Printable(final)
    ensures Ingestion.UniverseTickers(Header() + Body(final) + [""]) == Tickers(final)
  {
    var x := Tickers(final);
    assert [] + x + [] == x;
    BodyReadsBack(final);
    FixedLines();
    CommentsDropped(Header());
    CommentsDropped([""]);
    ReadAppend(Header(), Body(final));
    ReadAppend(Header() + Body(final), [""]);
  }

  /** Writing a selection and reading the file back as the ingestion run does
      gives its tickers, in order, when each fits on a line of its own. */
  lemma ReadBack(final: seq<Entry>)
    requires Printable(final)
    ensures Ingestion.UniverseTickers(SplitLines(UniverseText(final))) == Tickers(final)
  {
    TextLines(final);
    RenderedReadsBack(final);
  }

  /** A file of at most 1000 tickers is read whole by the ingestion run. */
  lemma EquityReadBack(final: seq<Entry>)
    requires Printable(final) && |final| <= 1000
    ensures Ingestion.Equity(UniverseText(final)) == Tickers(final)
  {
    ReadBack(final);
    TakeAll(Tickers(final), Ingestion.MaxUniverse);
  }

  /** The joined lines start with the title's `#`. */
  lemma JoinedStartsWithComment(final: seq<Entry>)
    ensures var j := JoinLines(Header() + Body(final)); |j| > 0 && j[0] == '#'
  {
    var lines := Header() + Body(final);
    var j := JoinLines(lines);
    assert lines[0] == Title;
    JoinEnds(lines);
    TitleIsComment();
    assert j[0] == j[..|lines[0]|][0];
  }

  /** The file neither starts nor ends with blank space and has exactly one
      final newline. */
  lemma TextShape(final: seq<Entry>)
    ensures var text := UniverseText(final);
      |text| >= 2 && text[|text| - 1] == '\n' && !IsSpace(text[0]) && !IsSpace(text[|text| - 2])
  {
    var j := JoinLines(Header() + Body(final));
    JoinedStartsWithComment(final);
    StrippedTerminated(j);
    assert UniverseText(final) == Strip(j) + "\n";
  }

  /** A text that starts with `#`, stripped and terminated by a newline. */
  lemma StrippedTerminated(j: string)
    requires |j| > 0 && j[0] == '#'
    ensures var t := Strip(j) + "\n"; |t| >= 2 && t[|t| - 1] == '\n' && !IsSpace(t[0]) && !IsSpace(t[|t| - 2])
  {
    StripNonBlank(j);
    var s := Strip(j);
    var t := s + "\n";
    assert t[0] == s[0] && t[|t| - 2] == s[|s| - 1];
  }

  /** The generated file reads back as the selected tickers. */
  lemma GeneratedReadsBack(fetch: Sources)
    requires SelectUniverse(fetch).Ok? && Printable(SelectUniverse(fetch).value)
    ensures Ingestion.Equity(UniverseText(SelectUniverse(fetch).value)) == Tickers(SelectUniverse(fetch).value)
    ensures Distinct(Ingestion.Equity(UniverseText(SelectUniverse(fetch).value)))
  {
    SelectUniverseShape(fetch);
    EquityReadBack(SelectUniverse(fetch).value);
  }
}
