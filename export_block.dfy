/**
 * The block of declarations `moli` keeps between two marker comments in a
 * module manifest (`mod.rs`, `index.ts`, `index.js`, `__init__.py`).
 */
module ExportBlock {
  import opened Text

  function StartMarker(comment: string): string {
    comment + " start auto exported by moli."
  }

  function EndMarker(comment: string): string {
    comment + " end auto exported by moli."
  }

  /** The start marker, the declarations joined by newlines, the end marker, then an empty line. */
  function Block(comment: string, decls: seq<string>): string {
    StartMarker(comment) + "\n" + Join(decls, "\n") + "\n" + EndMarker(comment) + "\n\n"
  }

  /** The declarations as lines of the block: one empty line stands for none. */
  function Body(decls: seq<string>): seq<string> {
    if decls == [] then [""] else decls
  }

  /** The block's lines before `lines()` drops the empty piece after the final newline. */
  function BlockPieces(comment: string, decls: seq<string>): seq<string> {
    [StartMarker(comment)] + (Body(decls) + [EndMarker(comment), "", ""])
  }

  lemma BlockIsJoin(comment: string, decls: seq<string>)
    ensures Join(BlockPieces(comment, decls), "\n") == Block(comment, decls)
  {
    var e := EndMarker(comment);
    var body := Body(decls);
    TailJoin(body, e);
    assert Join(body, "\n") == Join(decls, "\n");
    var ls := BlockPieces(comment, decls);
    assert ls[0] == StartMarker(comment) && ls[1..] == body + [e, "", ""];
  }

  lemma TailJoin(body: seq<string>, e: string)
    requires body != []
    ensures Join(body + [e, "", ""], "\n") == Join(body, "\n") + "\n" + e + "\n\n"
  {
    JoinSnoc(body, e, "\n");
    JoinSnoc(body + [e], "", "\n");
    JoinSnoc(body + [e, ""], "", "\n");
    assert body + [e] + [""] == body + [e, ""];
    assert body + [e, ""] + [""] == body + [e, "", ""];
  }

  lemma BlockPiecesNoNewline(comment: string, decls: seq<string>)
    requires '\n' !in comment && NoneContains(decls, '\n')
    ensures NoneContains(BlockPieces(comment, decls), '\n')
  {
    var s, e := StartMarker(comment), EndMarker(comment);
    assert '\n' !in s && '\n' !in e;
    var ls := BlockPieces(comment, decls);
    var body := Body(decls);
    forall k | 0 <= k < |ls| ensures '\n' !in ls[k] {
      if 1 <= k < 1 + |body| {
        assert ls[k] == body[k - 1];
      }
    }
  }

  /** The lines of a block: markers around the declarations, then one empty line. */
  function BlockLineSeq(comment: string, decls: seq<string>): seq<string> {
    [StartMarker(comment)] + Body(decls) + [EndMarker(comment), ""]
  }

  /** A block is its lines, each followed by a newline. */
  lemma BlockTerminated(comment: string, decls: seq<string>)
    ensures Block(comment, decls) == Terminated(BlockLineSeq(comment, decls))
  {
    var ls := BlockLineSeq(comment, decls);
    BlockIsJoin(comment, decls);
    TerminatedJoin(ls);
    assert ls + [""] == BlockPieces(comment, decls);
  }

  /**
   * Read back line by line, the block is the start marker, the
   * declarations (one empty line when there are none), the end marker and
   * one empty line.
   */
  lemma BlockLines(comment: string, decls: seq<string>)
    requires '\n' !in comment && NoneContains(decls, '\n')
    ensures Lines(Block(comment, decls))
            == [StartMarker(comment)] + Body(decls) + [EndMarker(comment), ""]
  {
    var ls := BlockPieces(comment, decls);
    BlockIsJoin(comment, decls);
    BlockPiecesNoNewline(comment, decls);
    LinesOfJoin(ls);
    assert ls[..|ls| - 1] == [StartMarker(comment)] + Body(decls) + [EndMarker(comment), ""];
  }
}
