/** The entry description renderer (`desc_to_paragraphs` in the entry
    module): a small state machine over the event stream of a Markdown
    parser that accepts only a flat list of paragraphs and indented code
    blocks and returns the plain text of each. The Markdown parser itself is
    not modelled; its output is the input here. */
module Paragraphs {
  import opened Wrappers

  datatype CodeBlockKind = Indented | Fenced(info: string)

  /** Block and inline tags; every tag other than a paragraph or a code
      block (heading, list, item, emphasis, link, ...) is `OtherTag`. */
  datatype Tag = Paragraph | CodeBlock(kind: CodeBlockKind) | OtherTag(name: string)

  /** Parser events; `OtherEvent` is every kind not named here (hard break,
      HTML, rule, footnote reference, task marker, ...). */
  datatype Event =
    | Start(tag: Tag)
    | End(tag: Tag)
    | Text(text: string)
    | Code(text: string)
    | SoftBreak
    | OtherEvent(name: string)

  predicate Allowed(t: Tag) {
    t == Paragraph || t == CodeBlock(Indented)
  }

  /** One step of the loop: `open` is the tag of the block being read, `cur`
      the text gathered for it, `acc` the finished paragraphs. */
  function Run(events: seq<Event>, open: Option<Tag>, cur: string, acc: seq<string>): Option<seq<string>>
    decreases |events|
  {
    if |events| == 0 then Some(acc)
    else
      match events[0]
      case Start(tag) =>
        if open.Some? then None
        else if Allowed(tag) then Run(events[1..], Some(tag), "", acc)
        else None
      case End(tag) =>
        if Some(tag) != open then None
        else Run(events[1..], None, cur, acc + [cur])
      case Text(t) => Run(events[1..], open, cur + t, acc)
      case Code(t) => Run(events[1..], open, cur + t, acc)
      case SoftBreak => Run(events[1..], open, cur + " ", acc)
      case OtherEvent(_) => None
  }

  /** `desc_to_paragraphs`. */
  function DescToParagraphs(events: seq<Event>): Option<seq<string>> {
    Run(events, None, "", [])
  }

  // ------------------------------------------------ accepted documents

  /** The inline content the renderer accepts inside a block. */
  datatype Inline = IText(text: string) | ICode(code: string) | ISoftBreak

  /** A flat block: a paragraph or indented code block and its content. */
  datatype Block = Block(tag: Tag, inlines: seq<Inline>)

  function InlineEvent(i: Inline): Event {
    match i
    case IText(t) => Text(t)
    case ICode(t) => Code(t)
    case ISoftBreak => SoftBreak
  }

  function InlineEvents(inl: seq<Inline>): seq<Event>
    decreases |inl|
  {
    if |inl| == 0 then [] else [InlineEvent(inl[0])] + InlineEvents(inl[1..])
  }

  /** The event stream a Markdown parser produces for a list of blocks. */
  function Events(blocks: seq<Block>): seq<Event>
    decreases |blocks|
  {
    if |blocks| == 0 then []
    else [Start(blocks[0].tag)] + InlineEvents(blocks[0].inlines) + [End(blocks[0].tag)] + Events(blocks[1..])
  }

  /** The plain text of a block: text and code as written, a soft line
      break as one blank. */
  function InlineText(inl: seq<Inline>): string
    decreases |inl|
  {
    if |inl| == 0 then []
    else
      (match inl[0] case IText(t) => t case ICode(t) => t case ISoftBreak => " ")
      + InlineText(inl[1..])
  }

  function Texts(blocks: seq<Block>): seq<string>
    decreases |blocks|
  {
    if |blocks| == 0 then [] else [InlineText(blocks[0].inlines)] + Texts(blocks[1..])
  }

  predicate AllAllowed(blocks: seq<Block>) {
    forall k :: 0 <= k < |blocks| ==> Allowed(blocks[k].tag)
  }

  /** The text left in `cur` after reading the blocks. */
  function LastText(blocks: seq<Block>, cur: string): string
    decreases |blocks|
  {
    if |blocks| == 0 then cur else LastText(blocks[1..], InlineText(blocks[0].inlines))
  }

  lemma {:induction false} RunInlines(inl: seq<Inline>, rest: seq<Event>, t: Tag, cur: string, acc: seq<string>)
    ensures Run(InlineEvents(inl) + rest, Some(t), cur, acc) == Run(rest, Some(t), cur + InlineText(inl), acc)
    decreases |inl|
  {
    if |inl| > 0 {
      var head := match inl[0] case IText(s) => s case ICode(s) => s case ISoftBreak => " ";
      var evs := InlineEvents(inl) + rest;
      assert evs == [InlineEvent(inl[0])] + (InlineEvents(inl[1..]) + rest);
      assert evs[1..] == InlineEvents(inl[1..]) + rest;
      RunInlines(inl[1..], rest, t, cur + head, acc);
      assert cur + head + InlineText(inl[1..]) == cur + InlineText(inl);
    } else {
      assert InlineEvents(inl) + rest == rest;
      assert cur + InlineText(inl) == cur;
    }
  }

  /** Opening an allowed block and reading its content. */
  lemma RunOpenBlock(t: Tag, inl: seq<Inline>, rest: seq<Event>, cur: string, acc: seq<string>)
    requires Allowed(t)
    ensures Run(([Start(t)] + InlineEvents(inl)) + rest, None, cur, acc) == Run(rest, Some(t), InlineText(inl), acc)
  {
    var evs := ([Start(t)] + InlineEvents(inl)) + rest;
    assert evs[0] == Start(t);
    assert evs[1..] == InlineEvents(inl) + rest;
    RunInlines(inl, rest, t, "", acc);
    assert "" + InlineText(inl) == InlineText(inl);
  }

  /** Reading one whole allowed block adds its text as a paragraph. */
  lemma RunOneBlock(b: Block, rest: seq<Event>, cur: string, acc: seq<string>)
    requires Allowed(b.tag)
    ensures Run(([Start(b.tag)] + InlineEvents(b.inlines)) + ([End(b.tag)] + rest), None, cur, acc)
            == Run(rest, None, InlineText(b.inlines), acc + [InlineText(b.inlines)])
  {
    RunOpenBlock(b.tag, b.inlines, [End(b.tag)] + rest, cur, acc);
    var after := [End(b.tag)] + rest;
    assert after[0] == End(b.tag);
    assert after[1..] == rest;
  }

  lemma {:induction false} RunBlocks(blocks: seq<Block>, rest: seq<Event>, cur: string, acc: seq<string>)
    requires AllAllowed(blocks)
    ensures Run(Events(blocks) + rest, None, cur, acc) == Run(rest, None, LastText(blocks, cur), acc + Texts(blocks))
    decreases |blocks|
  {
    if |blocks| == 0 {
      assert Events(blocks) + rest == rest;
      assert acc + Texts(blocks) == acc;
    } else {
      var b := blocks[0];
      var later := Events(blocks[1..]) + rest;
      assert Events(blocks) + rest == ([Start(b.tag)] + InlineEvents(b.inlines)) + ([End(b.tag)] + later);
      RunOneBlock(b, later, cur, acc);
      var text := InlineText(b.inlines);
      RunBlocks(blocks[1..], rest, text, acc + [text]);
      assert acc + [text] + Texts(blocks[1..]) == acc + Texts(blocks);
    }
  }

  /** A flat list of paragraphs and indented code blocks is accepted, and
      the result is the text of each block, in order. */
  lemma AcceptsFlatBlocks(blocks: seq<Block>)
    requires AllAllowed(blocks)
    ensures DescToParagraphs(Events(blocks)) == Some(Texts(blocks))
  {
    RunBlocks(blocks, [], "", []);
    assert Events(blocks) + [] == Events(blocks);
    assert [] + Texts(blocks) == Texts(blocks);
  }

  // ------------------------------------------------ rejected documents

  /** A block opened inside another block aborts the rendering. */
  lemma RejectsNestedStart(blocks: seq<Block>, t: Tag, inl: seq<Inline>, t2: Tag, rest: seq<Event>)
    requires AllAllowed(blocks) && Allowed(t)
    ensures DescToParagraphs(Events(blocks) + ([Start(t)] + InlineEvents(inl) + ([Start(t2)] + rest))) == None
  {
    RunBlocks(blocks, [Start(t)] + InlineEvents(inl) + ([Start(t2)] + rest), "", []);
    RunOpenBlock(t, inl, [Start(t2)] + rest, LastText(blocks, ""), [] + Texts(blocks));
  }

  /** A tag other than a paragraph or an indented code block aborts it. */
  lemma RejectsOtherTag(blocks: seq<Block>, t: Tag, rest: seq<Event>)
    requires AllAllowed(blocks) && !Allowed(t)
    ensures DescToParagraphs(Events(blocks) + ([Start(t)] + rest)) == None
  {
    RunBlocks(blocks, [Start(t)] + rest, "", []);
  }

  /** An end that does not close the open block aborts it. */
  lemma RejectsMismatchedEnd(blocks: seq<Block>, t: Tag, inl: seq<Inline>, t2: Tag, rest: seq<Event>)
    requires AllAllowed(blocks) && Allowed(t) && t2 != t
    ensures DescToParagraphs(Events(blocks) + ([Start(t)] + InlineEvents(inl) + ([End(t2)] + rest))) == None
  {
    RunBlocks(blocks, [Start(t)] + InlineEvents(inl) + ([End(t2)] + rest), "", []);
    RunOpenBlock(t, inl, [End(t2)] + rest, LastText(blocks, ""), [] + Texts(blocks));
  }

  /** An end with no open block aborts it. */
  lemma RejectsStrayEnd(blocks: seq<Block>, t: Tag, rest: seq<Event>)
    requires AllAllowed(blocks)
    ensures DescToParagraphs(Events(blocks) + ([End(t)] + rest)) == None
  {
    RunBlocks(blocks, [End(t)] + rest, "", []);
  }

  /** Any other kind of event aborts it, inside a block or between blocks. */
  lemma RejectsOtherEvent(blocks: seq<Block>, t: Tag, inl: seq<Inline>, name: string, rest: seq<Event>)
    requires AllAllowed(blocks) && Allowed(t)
    ensures DescToParagraphs(Events(blocks) + ([OtherEvent(name)] + rest)) == None
    ensures DescToParagraphs(Events(blocks) + ([Start(t)] + InlineEvents(inl) + ([OtherEvent(name)] + rest))) == None
  {
    RunBlocks(blocks, [OtherEvent(name)] + rest, "", []);
    RunBlocks(blocks, [Start(t)] + InlineEvents(inl) + ([OtherEvent(name)] + rest), "", []);
    RunOpenBlock(t, inl, [OtherEvent(name)] + rest, LastText(blocks, ""), [] + Texts(blocks));
  }

  /** A block still open when the events run out is dropped: only closed
      blocks produce a paragraph. */
  lemma DropsUnclosedBlock(blocks: seq<Block>, t: Tag, inl: seq<Inline>)
    requires AllAllowed(blocks) && Allowed(t)
    ensures DescToParagraphs(Events(blocks) + ([Start(t)] + InlineEvents(inl))) == Some(Texts(blocks))
  {
    RunBlocks(blocks, [Start(t)] + InlineEvents(inl), "", []);
    RunOpenBlock(t, inl, [], LastText(blocks, ""), [] + Texts(blocks));
    assert ([Start(t)] + InlineEvents(inl)) + [] == [Start(t)] + InlineEvents(inl);
    assert [] + Texts(blocks) == Texts(blocks);
  }

  /** A block of a single text run. */
  lemma SingleTextBlock(t: Tag, text: string, rest: seq<Block>)
    ensures Events([Block(t, [IText(text)])] + rest) == [Start(t), Text(text), End(t)] + Events(rest)
    ensures Texts([Block(t, [IText(text)])] + rest) == [text] + Texts(rest)
  {
    var bs := [Block(t, [IText(text)])] + rest;
    assert bs[1..] == rest;
    assert [IText(text)][1..] == [];
    assert InlineEvents([IText(text)]) == [Text(text)];
    assert InlineText([IText(text)]) == text;
  }

  /** The documents of the launcher's tests, as a CommonMark parser reads
      them: an empty description, a single line, a line followed after a
      blank line by a line indented twelve spaces (a paragraph and then an
      indented code block), and a line indented four spaces (an indented
      code block alone) are all accepted, each block giving one text. */
  lemma ParserExamples(one: string, code: string)
    ensures DescToParagraphs([]) == Some([])
    ensures DescToParagraphs([Start(Paragraph), Text(one), End(Paragraph)]) == Some([one])
    ensures DescToParagraphs([Start(Paragraph), Text(one), End(Paragraph),
                              Start(CodeBlock(Indented)), Text(code), End(CodeBlock(Indented))])
            == Some([one, code])
    ensures DescToParagraphs([Start(CodeBlock(Indented)), Text(code), End(CodeBlock(Indented))]) == Some([code])
  {
    var p1 := [Block(Paragraph, [IText(one)])];
    var c := [Block(CodeBlock(Indented), [IText(code)])];
    SingleTextBlock(Paragraph, one, []);
    assert p1 + [] == p1;
    assert Events(p1) == [Start(Paragraph), Text(one), End(Paragraph)];
    assert Texts(p1) == [one];
    AcceptsFlatBlocks(p1);
    SingleTextBlock(CodeBlock(Indented), code, []);
    assert c + [] == c;
    assert Events(c) == [Start(CodeBlock(Indented)), Text(code), End(CodeBlock(Indented))];
    assert Texts(c) == [code];
    AcceptsFlatBlocks(c);
    SingleTextBlock(Paragraph, one, c);
    assert Events(p1 + c) == [Start(Paragraph), Text(one), End(Paragraph),
                              Start(CodeBlock(Indented)), Text(code), End(CodeBlock(Indented))];
    assert Texts(p1 + c) == [one, code];
    AcceptsFlatBlocks(p1 + c);
  }
}
