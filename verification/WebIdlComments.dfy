/**
 * Documentation as comments: any lines can be laid out above a definition, and
 * trimmed lines above a member, so that they are read back.
 *
 * A definition's lines are split at the empty ones into paragraphs, each of
 * them a block of comments with an empty line under it. A paragraph that is
 * empty, or that would be taken for a license, has an empty comment above it.
 */
module WebIdlComments {
  import opened Basics
  import opened WebIdl

  predicate IsLine(text: string) {
    '\n' !in text
  }

  /** Lines with no empty one at either end. */
  predicate IsTrimmed(doc: seq<string>) {
    && (doc != [] ==> doc[0] != "" && doc[|doc| - 1] != "")
    && forall line :: line in doc ==> IsLine(line)
  }

  /** `texts` as comments on the lines from `line`. */
  function Block(texts: seq<string>, line: int): seq<Comment> {
    seq(|texts|, i requires 0 <= i < |texts| => Comment(line + i, texts[i]))
  }

  /** Lines up to each empty one, as paragraphs. */
  function Split(doc: seq<string>): (r: seq<seq<string>>)
    ensures r != []
  {
    if doc == [] then [[]]
    else
      var before, last := Split(doc[..|doc| - 1]), doc[|doc| - 1];
      if last == "" then before + [[]] else before[..|before| - 1] + [before[|before| - 1] + [last]]
  }

  /** A paragraph's comment lines, under an empty one if they would be missing or a license. */
  function Guarded(paragraph: seq<string>): (r: seq<string>)
    ensures r != []
  {
    if paragraph == [] || "Copyright" <= paragraph[0] then [""] + paragraph else paragraph
  }

  function Height(paragraphs: seq<seq<string>>): nat {
    if paragraphs == [] then 0
    else Height(paragraphs[..|paragraphs| - 1]) + |Guarded(paragraphs[|paragraphs| - 1])| + 1
  }

  /** Each paragraph as a block, with an empty line under it. */
  function Blocks(paragraphs: seq<seq<string>>, line: int): (r: seq<Comment>)
    ensures paragraphs == [] ==> r == []
    ensures paragraphs != [] ==> r != [] && r[|r| - 1].line == line + Height(paragraphs) - 2
  {
    if paragraphs == [] then []
    else
      var before := paragraphs[..|paragraphs| - 1];
      Blocks(before, line) + Block(Guarded(paragraphs[|paragraphs| - 1]), line + Height(before))
  }

  function DocHeight(doc: seq<string>): nat {
    if doc == [] then 0 else Height(Split(doc))
  }

  function DocComments(doc: seq<string>, line: int): seq<Comment> {
    if doc == [] then [] else Blocks(Split(doc), line)
  }

  // Comments printed are read back as the documentation.

  /** A new comment starts a block unless it is on the line under the last. */
  lemma {:induction false} BlocksEndWithLast(comments: seq<Comment>)
    requires comments != []
    ensures var blocks := CommentBlocks(comments);
            blocks != [] && (var last := blocks[|blocks| - 1]; last[|last| - 1] == comments[|comments| - 1])
  {
  }

  lemma OneMore(comments: seq<Comment>, comment: Comment)
    ensures CommentBlocks(comments + [comment])
         == var blocks := CommentBlocks(comments);
            if comments != [] && comments[|comments| - 1].line == comment.line - 1
            then blocks[..|blocks| - 1] + [blocks[|blocks| - 1] + [comment]]
            else blocks + [[comment]]
  {
    assert (comments + [comment])[..|comments|] == comments;
    if comments != [] {
      BlocksEndWithLast(comments);
    }
  }

  lemma {:induction false} BlockApart(before: seq<Comment>, texts: seq<string>, line: int)
    requires texts != [] && (before != [] ==> before[|before| - 1].line < line - 1)
    ensures CommentBlocks(before + Block(texts, line)) == CommentBlocks(before) + [Block(texts, line)]
    decreases |texts|
  {
    var shorter := texts[..|texts| - 1];
    var last := Comment(line + |texts| - 1, texts[|texts| - 1]);
    assert Block(texts, line) == Block(shorter, line) + [last];
    var comments := before + Block(shorter, line);
    assert before + Block(texts, line) == comments + [last];
    OneMore(comments, last);
    if shorter == [] {
      assert comments == before;
      assert Block(texts, line) == [last];
    } else {
      BlockApart(before, shorter, line);
      assert comments[|comments| - 1] == Block(shorter, line)[|shorter| - 1];
      assert CommentBlocks(comments)[..|CommentBlocks(before)|] == CommentBlocks(before);
    }
  }

  lemma TrimmedText(texts: seq<string>, line: int)
    requires texts != [] ==> texts[0] != "" && texts[|texts| - 1] != ""
    ensures BlockText(Block(texts, line)) == texts
  {
    assert Texts(Block(texts, line)) == texts;
  }

  /** Documentation right above a member is its documentation, whatever comments are further up. */
  lemma LastBlockRead(before: seq<Comment>, doc: seq<string>, line: int, text: string)
    requires doc != [] && IsTrimmed(doc) && (before != [] ==> before[|before| - 1].line < line - 1)
    ensures MemberDoc(Token(before + Block(doc, line), line + |doc|, text)) == doc
  {
    hide CommentBlocks, BlockText;
    BlockApart(before, doc, line);
    TrimmedText(doc, line);
  }

  lemma MemberDocRead(doc: seq<string>, line: int, text: string)
    requires IsTrimmed(doc)
    ensures MemberDoc(Token(Block(doc, line), line + |doc|, text)) == doc
  {
    if doc != [] {
      LastBlockRead([], doc, line, text);
      assert [] + Block(doc, line) == Block(doc, line);
    }
  }

  /** Any lines at all above a definition are its documentation. */
  lemma DefinitionDocRead(doc: seq<string>, line: int)
    ensures DefinitionDoc(DocComments(doc, line)) == doc
  {
    if doc != [] {
      BlocksRead([], Split(doc), line);
      assert [] + DocComments(doc, line) == DocComments(doc, line);
      assert [] + BlockList(Split(doc), line) == BlockList(Split(doc), line);
      ParagraphsJoin(doc, line);
    }
  }

  /** A license above it is not. */
  lemma LicenseIsDropped(license: seq<string>, doc: seq<string>, line: int)
    requires license != [] && "Copyright" <= license[0]
    ensures DefinitionDoc(Block(license, line) + DocComments(doc, line + |license| + 1)) == doc
  {
    hide CommentBlocks, WithoutLicenses, Paragraphs, Blocks, BlockList, Split;
    var header, from := Block(license, line), line + |license| + 1;
    HeaderRead(license, line);
    if doc == [] {
      assert header + [] == header && [header] + [] == [header];
      LicenseFirst(header, []);
    } else {
      BlocksRead(header, Split(doc), from);
      LicenseFirst(header, BlockList(Split(doc), from));
      ParagraphsJoin(doc, from);
    }
  }

  lemma HeaderRead(texts: seq<string>, line: int)
    requires texts != []
    ensures CommentBlocks(Block(texts, line)) == [Block(texts, line)]
  {
    BlockApart([], texts, line);
    assert [] + Block(texts, line) == Block(texts, line);
  }

  lemma LicenseFirst(license: seq<Comment>, blocks: seq<seq<Comment>>)
    requires IsLicense(license)
    ensures WithoutLicenses([license] + blocks) == WithoutLicenses(blocks)
    ensures Paragraphs(WithoutLicenses([])) == []
  {
    assert ([license] + blocks)[1..] == blocks;
  }

  ghost predicate IsFull(paragraph: seq<string>) {
    forall j :: 0 <= j < |paragraph| ==> paragraph[j] != ""
  }

  ghost predicate AreFull(paragraphs: seq<seq<string>>) {
    forall i :: 0 <= i < |paragraphs| ==> IsFull(paragraphs[i])
  }

  lemma {:induction false} SplitHasNoEmptyLine(doc: seq<string>)
    ensures AreFull(Split(doc))
  {
    if doc != [] {
      SplitHasNoEmptyLine(doc[..|doc| - 1]);
    }
  }

  /** The blocks `Blocks` lays out. */
  function BlockList(paragraphs: seq<seq<string>>, line: int): (r: seq<seq<Comment>>)
    ensures |r| == |paragraphs|
  {
    if paragraphs == [] then []
    else
      var before := paragraphs[..|paragraphs| - 1];
      BlockList(before, line) + [Block(Guarded(paragraphs[|paragraphs| - 1]), line + Height(before))]
  }

  lemma {:induction false} BlocksRead(above: seq<Comment>, paragraphs: seq<seq<string>>, line: int)
    requires above != [] ==> above[|above| - 1].line < line - 1
    ensures CommentBlocks(above + Blocks(paragraphs, line)) == CommentBlocks(above) + BlockList(paragraphs, line)
    decreases |paragraphs|
  {
    hide CommentBlocks;
    if paragraphs == [] {
      assert above + Blocks(paragraphs, line) == above;
    } else {
      var before := paragraphs[..|paragraphs| - 1];
      var texts, from := Guarded(paragraphs[|paragraphs| - 1]), line + Height(before);
      BlocksRead(above, before, line);
      BlockAfter(above, Blocks(before, line), BlockList(before, line), texts, from);
    }
  }

  lemma BlockAfter(above: seq<Comment>, comments: seq<Comment>, blocks: seq<seq<Comment>>, texts: seq<string>,
                   line: int)
    requires CommentBlocks(above + comments) == CommentBlocks(above) + blocks
    requires texts != [] && (above + comments != [] ==> (above + comments)[|above + comments| - 1].line < line - 1)
    ensures CommentBlocks(above + (comments + Block(texts, line)))
         == CommentBlocks(above) + (blocks + [Block(texts, line)])
  {
    hide CommentBlocks;
    BlockApart(above + comments, texts, line);
    Associates(above, comments, Block(texts, line));
    Associates(CommentBlocks(above), blocks, [Block(texts, line)]);
  }

  lemma {:induction false} WithoutLicensesAppend(blocks: seq<seq<Comment>>, block: seq<Comment>)
    ensures WithoutLicenses(blocks + [block]) == WithoutLicenses(blocks) + if IsLicense(block) then [] else [block]
  {
    if blocks == [] {
      assert blocks + [block] == [block];
    } else {
      assert (blocks + [block])[1..] == blocks[1..] + [block];
      WithoutLicensesAppend(blocks[1..], block);
    }
  }

  lemma {:induction false} NoLicenses(paragraphs: seq<seq<string>>, line: int)
    ensures WithoutLicenses(BlockList(paragraphs, line)) == BlockList(paragraphs, line)
  {
    if paragraphs != [] {
      var before, last := paragraphs[..|paragraphs| - 1], paragraphs[|paragraphs| - 1];
      NoLicenses(before, line);
      WithoutLicensesAppend(BlockList(before, line), Block(Guarded(last), line + Height(before)));
    }
  }

  lemma GuardedText(paragraph: seq<string>, line: int)
    requires IsFull(paragraph)
    ensures BlockText(Block(Guarded(paragraph), line)) == paragraph
  {
    var texts := Guarded(paragraph);
    assert Texts(Block(texts, line)) == texts;
    if texts != paragraph {
      assert texts[1..] == paragraph;
      assert TrimStart(texts) == TrimStart(paragraph) == paragraph;
    }
  }

  /** `[""]` between paragraphs, as they are joined. */
  function Joined(paragraphs: seq<seq<string>>): seq<string> {
    if paragraphs == [] then []
    else if |paragraphs| == 1 then paragraphs[0]
    else Joined(paragraphs[..|paragraphs| - 1]) + [""] + paragraphs[|paragraphs| - 1]
  }

  ghost predicate Reads(blocks: seq<seq<Comment>>, paragraphs: seq<seq<string>>) {
    |blocks| == |paragraphs| &&
    forall i :: 0 <= i < |blocks| ==> blocks[i] != [] && BlockText(blocks[i]) == paragraphs[i]
  }

  lemma {:induction false} BlockListAt(paragraphs: seq<seq<string>>, line: int, i: nat) returns (from: int)
    requires i < |paragraphs|
    ensures BlockList(paragraphs, line)[i] == Block(Guarded(paragraphs[i]), from)
  {
    var before := paragraphs[..|paragraphs| - 1];
    from := line + Height(before);
    if i < |before| {
      from := BlockListAt(before, line, i);
    }
  }

  lemma BlockListReads(paragraphs: seq<seq<string>>, line: int)
    requires AreFull(paragraphs)
    ensures Reads(BlockList(paragraphs, line), paragraphs)
  {
    forall i | 0 <= i < |paragraphs|
      ensures var block := BlockList(paragraphs, line)[i]; block != [] && BlockText(block) == paragraphs[i]
    {
      var from := BlockListAt(paragraphs, line, i);
      GuardedText(paragraphs[i], from);
    }
  }

  lemma {:induction false} TextsJoin(blocks: seq<seq<Comment>>, paragraphs: seq<seq<string>>)
    requires Reads(blocks, paragraphs)
    ensures Paragraphs(blocks) == Joined(paragraphs)
  {
    if |blocks| > 1 {
      TextsJoin(blocks[..|blocks| - 1], paragraphs[..|paragraphs| - 1]);
    }
  }

  lemma {:induction false} JoinedSplit(doc: seq<string>)
    ensures Joined(Split(doc)) == doc
  {
    if doc != [] {
      var shorter, last := doc[..|doc| - 1], doc[|doc| - 1];
      var before, after := Split(shorter), Split(doc);
      JoinedSplit(shorter);
      if last == "" {
        assert after[..|after| - 1] == before;
      } else {
        assert after[..|after| - 1] == before[..|before| - 1];
      }
      assert doc == shorter + [last];
    }
  }

  lemma ParagraphsJoin(doc: seq<string>, line: int)
    requires doc != []
    ensures Paragraphs(WithoutLicenses(BlockList(Split(doc), line))) == doc
  {
    SplitHasNoEmptyLine(doc);
    NoLicenses(Split(doc), line);
    BlockListReads(Split(doc), line);
    TextsJoin(BlockList(Split(doc), line), Split(doc));
    JoinedSplit(doc);
  }
}
