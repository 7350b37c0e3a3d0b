/**
 * The loader's chunk acceptance: every candidate chunk within the token bound is appended to the
 * accumulator as it is; an over-bound chunk is re-split and its pieces are handled the same way,
 * depth first and in the order the splitter returns them.
 *
 * The tokenizer and the semantic splitter are uninterpreted functions fixed at construction.
 * The code gives no reason for the recursion to end; the model assumes it, as `Shrinks`: every
 * piece of an over-bound text has strictly fewer tokens than that text.
 */
module Loading {
  import opened Wrappers
  import opened Text

  /** A chunk's page content (the splitter attaches no metadata). */
  type Chunk = string

  /** A file of the data folder as `os.listdir` and `read()` give it. */
  datatype SourceFile = SourceFile(name: string, content: string)

  /** The termination assumption: splitting an over-bound text yields pieces with fewer tokens. */
  ghost predicate Shrinks(tokens: string -> nat, split: string -> seq<Chunk>, maxTokens: int) {
    forall t {:trigger split(t)} :: tokens(t) > maxTokens ==> forall p :: p in split(t) ==> tokens(p) < tokens(t)
  }

  /** The largest token count among `pieces` (0 for none). */
  function MaxTokens(tokens: string -> nat, pieces: seq<Chunk>): (m: nat)
    ensures forall i :: 0 <= i < |pieces| ==> tokens(pieces[i]) <= m
    ensures pieces != [] ==> exists i :: 0 <= i < |pieces| && tokens(pieces[i]) == m
    decreases |pieces|
  {
    if pieces == [] then 0
    else
      var first := tokens(pieces[0]);
      var rest := MaxTokens(tokens, pieces[1..]);
      if first > rest then first else rest
  }

  /** What `split_chunks(chunk)` appends: the chunk itself, or what its pieces append. */
  function Accepted(tokens: string -> nat, split: string -> seq<Chunk>, maxTokens: int, chunk: Chunk): (r: seq<Chunk>)
    requires Shrinks(tokens, split, maxTokens)
    ensures tokens(chunk) <= maxTokens ==> r == [chunk]
    decreases tokens(chunk), 0, 0
  {
    if tokens(chunk) <= maxTokens then [chunk]
    else
      var pieces := split(chunk);
      if pieces == [] then []
      else
        assert MaxTokens(tokens, pieces) < tokens(chunk) by {
          var i :| 0 <= i < |pieces| && tokens(pieces[i]) == MaxTokens(tokens, pieces);
          assert pieces[i] in split(chunk);
        }
        AcceptedAll(tokens, split, maxTokens, pieces)
  }

  /** What a `for` loop of `split_chunks` calls over `pieces` appends, piece after piece. */
  function AcceptedAll(tokens: string -> nat, split: string -> seq<Chunk>, maxTokens: int, pieces: seq<Chunk>): (r: seq<Chunk>)
    requires Shrinks(tokens, split, maxTokens)
    decreases MaxTokens(tokens, pieces), 1, |pieces|
  {
    if pieces == [] then []
    else
      Accepted(tokens, split, maxTokens, pieces[0]) + AcceptedAll(tokens, split, maxTokens, pieces[1..])
  }

  /** Every chunk `split_chunks` appends is within the bound. */
  lemma {:induction false} AcceptedBounded(tokens: string -> nat, split: string -> seq<Chunk>, maxTokens: int,
                                           chunk: Chunk)
    requires Shrinks(tokens, split, maxTokens)
    ensures forall i :: 0 <= i < |Accepted(tokens, split, maxTokens, chunk)| ==>
      tokens(Accepted(tokens, split, maxTokens, chunk)[i]) <= maxTokens
    decreases tokens(chunk), 0, 0
  {
    var pieces := split(chunk);
    if tokens(chunk) > maxTokens && pieces != [] {
      assert MaxTokens(tokens, pieces) < tokens(chunk) by {
        var i :| 0 <= i < |pieces| && tokens(pieces[i]) == MaxTokens(tokens, pieces);
        assert pieces[i] in split(chunk);
      }
      AcceptedAllBounded(tokens, split, maxTokens, pieces);
    }
  }

  /** An over-bound chunk is never appended itself, only (some of) its pieces. */
  lemma AcceptedDropsOverBound(tokens: string -> nat, split: string -> seq<Chunk>, maxTokens: int, chunk: Chunk)
    requires Shrinks(tokens, split, maxTokens)
    requires tokens(chunk) > maxTokens
    ensures chunk !in Accepted(tokens, split, maxTokens, chunk)
  {
    AcceptedBounded(tokens, split, maxTokens, chunk);
  }

  /** Every chunk the handling of a run of pieces appends is within the bound. */
  lemma {:induction false} AcceptedAllBounded(tokens: string -> nat, split: string -> seq<Chunk>, maxTokens: int,
                                              pieces: seq<Chunk>)
    requires Shrinks(tokens, split, maxTokens)
    ensures forall i :: 0 <= i < |AcceptedAll(tokens, split, maxTokens, pieces)| ==>
      tokens(AcceptedAll(tokens, split, maxTokens, pieces)[i]) <= maxTokens
    decreases MaxTokens(tokens, pieces), 1, |pieces|
  {
    if pieces != [] {
      AcceptedBounded(tokens, split, maxTokens, pieces[0]);
      AcceptedAllBounded(tokens, split, maxTokens, pieces[1..]);
    }
  }

  /** Handling two runs of pieces one after the other appends their results in that order. */
  lemma {:induction false} AcceptedAllAppend(tokens: string -> nat, split: string -> seq<Chunk>, maxTokens: int,
                                             a: seq<Chunk>, b: seq<Chunk>)
    requires Shrinks(tokens, split, maxTokens)
    ensures AcceptedAll(tokens, split, maxTokens, a + b)
         == AcceptedAll(tokens, split, maxTokens, a) + AcceptedAll(tokens, split, maxTokens, b)
    decreases |a|
  {
    if a == [] {
      assert a + b == b;
    } else {
      assert (a + b)[0] == a[0];
      assert (a + b)[1..] == a[1..] + b;
      calc {
        AcceptedAll(tokens, split, maxTokens, a + b);
        Accepted(tokens, split, maxTokens, a[0]) + AcceptedAll(tokens, split, maxTokens, a[1..] + b);
        { AcceptedAllAppend(tokens, split, maxTokens, a[1..], b); }
        Accepted(tokens, split, maxTokens, a[0])
          + (AcceptedAll(tokens, split, maxTokens, a[1..]) + AcceptedAll(tokens, split, maxTokens, b));
        AcceptedAll(tokens, split, maxTokens, a) + AcceptedAll(tokens, split, maxTokens, b);
      }
    }
  }

  /** Taking one more piece of a run appends what that piece appends. */
  lemma AcceptedAllPrefix(tokens: string -> nat, split: string -> seq<Chunk>, maxTokens: int,
                          pieces: seq<Chunk>, i: nat)
    requires Shrinks(tokens, split, maxTokens)
    requires i < |pieces|
    ensures AcceptedAll(tokens, split, maxTokens, pieces[..i + 1])
         == AcceptedAll(tokens, split, maxTokens, pieces[..i]) + Accepted(tokens, split, maxTokens, pieces[i])
  {
    assert pieces[..i + 1] == pieces[..i] + [pieces[i]];
    AcceptedAllAppend(tokens, split, maxTokens, pieces[..i], [pieces[i]]);
    assert [pieces[i]][1..] == [];
  }

  /** Under `Shrinks`, each piece of an over-bound chunk has fewer tokens than the chunk. */
  lemma PieceShrinks(tokens: string -> nat, split: string -> seq<Chunk>, maxTokens: int, chunk: Chunk, i: nat)
    requires Shrinks(tokens, split, maxTokens)
    requires tokens(chunk) > maxTokens
    requires i < |split(chunk)|
    ensures tokens(split(chunk)[i]) < tokens(chunk)
  {
    assert split(chunk)[i] in split(chunk);
  }

  /** An over-bound chunk appends what its pieces append (nothing when it splits into none). */
  lemma AcceptedOverBound(tokens: string -> nat, split: string -> seq<Chunk>, maxTokens: int, chunk: Chunk)
    requires Shrinks(tokens, split, maxTokens)
    requires tokens(chunk) > maxTokens
    ensures Accepted(tokens, split, maxTokens, chunk) == AcceptedAll(tokens, split, maxTokens, split(chunk))
    ensures Accepted(tokens, split, maxTokens, chunk)
         == AcceptedAll(tokens, split, maxTokens, split(chunk)[..|split(chunk)|])
  {
    assert split(chunk)[..|split(chunk)|] == split(chunk);
  }

  /** Candidates that are all within the bound are appended unchanged, in order. */
  lemma {:induction false} AcceptedAllKeepsSmall(tokens: string -> nat, split: string -> seq<Chunk>, maxTokens: int,
                                                 pieces: seq<Chunk>)
    requires Shrinks(tokens, split, maxTokens)
    requires forall i :: 0 <= i < |pieces| ==> tokens(pieces[i]) <= maxTokens
    ensures AcceptedAll(tokens, split, maxTokens, pieces) == pieces
    decreases |pieces|
  {
    if pieces != [] {
      AcceptedAllKeepsSmall(tokens, split, maxTokens, pieces[1..]);
      assert [pieces[0]] + pieces[1..] == pieces;
    }
  }

  // ----- Recursion depth ----------------------------------------------------------------------

  /**
   * `split_chunks(chunk)` as written, with no termination assumption, run under a bound on how
   * many nested re-splits the interpreter allows: None when that bound is reached (the
   * `RecursionError` that the handler of `main` catches, so `data_chunking` never returns; the
   * chunks appended before the error stay in `chunks_list`).
   */
  function AcceptedWithinDepth(tokens: string -> nat, split: string -> seq<Chunk>, maxTokens: int, chunk: Chunk,
                               depth: nat): (r: Option<seq<Chunk>>)
    ensures tokens(chunk) <= maxTokens ==> r == Some([chunk])
    decreases depth, 0
  {
    if tokens(chunk) <= maxTokens then Some([chunk])
    else if depth == 0 then None
    else AcceptedAllWithinDepth(tokens, split, maxTokens, split(chunk), depth - 1)
  }

  /** The `for` loop over the sub-splits under the same bound: the first failure aborts the loop. */
  function AcceptedAllWithinDepth(tokens: string -> nat, split: string -> seq<Chunk>, maxTokens: int,
                                  pieces: seq<Chunk>, depth: nat): Option<seq<Chunk>>
    decreases depth, 1, |pieces|
  {
    if pieces == [] then Some([])
    else
      var head := AcceptedWithinDepth(tokens, split, maxTokens, pieces[0], depth);
      var tail := AcceptedAllWithinDepth(tokens, split, maxTokens, pieces[1..], depth);
      if head.None? || tail.None? then None else Some(head.value + tail.value)
  }

  /**
   * Under `Shrinks`, a depth above the chunk's token count is enough: the bounded recursion ends
   * and appends exactly what `Accepted` describes.
   */
  lemma {:induction false} AcceptedWithinDepthAgrees(tokens: string -> nat, split: string -> seq<Chunk>,
                                                     maxTokens: int, chunk: Chunk, depth: nat)
    requires Shrinks(tokens, split, maxTokens)
    requires depth > tokens(chunk)
    ensures AcceptedWithinDepth(tokens, split, maxTokens, chunk, depth) == Some(Accepted(tokens, split, maxTokens, chunk))
    decreases depth, 0
  {
    if tokens(chunk) > maxTokens {
      var pieces := split(chunk);
      if pieces != [] {
        assert MaxTokens(tokens, pieces) < tokens(chunk) by {
          var i :| 0 <= i < |pieces| && tokens(pieces[i]) == MaxTokens(tokens, pieces);
          assert pieces[i] in split(chunk);
        }
      }
      AcceptedAllWithinDepthAgrees(tokens, split, maxTokens, pieces, depth - 1);
    }
  }

  /** The same for a run of pieces, each with fewer tokens than the depth. */
  lemma {:induction false} AcceptedAllWithinDepthAgrees(tokens: string -> nat, split: string -> seq<Chunk>,
                                                        maxTokens: int, pieces: seq<Chunk>, depth: nat)
    requires Shrinks(tokens, split, maxTokens)
    requires pieces == [] || MaxTokens(tokens, pieces) < depth
    ensures AcceptedAllWithinDepth(tokens, split, maxTokens, pieces, depth)
         == Some(AcceptedAll(tokens, split, maxTokens, pieces))
    decreases depth, 1, |pieces|
  {
    if pieces != [] {
      AcceptedWithinDepthAgrees(tokens, split, maxTokens, pieces[0], depth);
      if |pieces| > 1 {
        assert MaxTokens(tokens, pieces[1..]) <= MaxTokens(tokens, pieces);
      }
      AcceptedAllWithinDepthAgrees(tokens, split, maxTokens, pieces[1..], depth);
    }
  }

  /**
   * Every chunk the bounded recursion appends is within the bound, with no assumption on the
   * splitter: only lines 71-72 ever append.
   */
  lemma {:induction false} AcceptedWithinDepthBounded(tokens: string -> nat, split: string -> seq<Chunk>,
                                                      maxTokens: int, chunk: Chunk, depth: nat)
    ensures var r := AcceptedWithinDepth(tokens, split, maxTokens, chunk, depth);
      r.Some? ==> forall i :: 0 <= i < |r.value| ==> tokens(r.value[i]) <= maxTokens
    decreases depth, 0
  {
    if tokens(chunk) > maxTokens && depth > 0 {
      AcceptedAllWithinDepthBounded(tokens, split, maxTokens, split(chunk), depth - 1);
    }
  }

  /** The same for a run of pieces under the depth bound. */
  lemma {:induction false} AcceptedAllWithinDepthBounded(tokens: string -> nat, split: string -> seq<Chunk>,
                                                         maxTokens: int, pieces: seq<Chunk>, depth: nat)
    ensures var r := AcceptedAllWithinDepth(tokens, split, maxTokens, pieces, depth);
      r.Some? ==> forall i :: 0 <= i < |r.value| ==> tokens(r.value[i]) <= maxTokens
    decreases depth, 1, |pieces|
  {
    if pieces != [] {
      AcceptedWithinDepthBounded(tokens, split, maxTokens, pieces[0], depth);
      AcceptedAllWithinDepthBounded(tokens, split, maxTokens, pieces[1..], depth);
    }
  }

  /** A splitter that hands a text back whole, as a semantic splitter does with a single sentence. */
  function Unsplit(t: string): seq<Chunk> {
    [t]
  }

  /**
   * When the splitter hands back an over-bound text whole, `split_chunks` never finishes: no
   * depth bound is enough, and such a splitter is exactly what `Shrinks` excludes.
   */
  lemma {:induction false} SplitChunksNeverEnds(tokens: string -> nat, maxTokens: int, chunk: Chunk, depth: nat)
    requires tokens(chunk) > maxTokens
    ensures AcceptedWithinDepth(tokens, Unsplit, maxTokens, chunk, depth) == None
    ensures !Shrinks(tokens, Unsplit, maxTokens)
    decreases depth
  {
    assert chunk in Unsplit(chunk);
    if depth > 0 {
      SplitChunksNeverEnds(tokens, maxTokens, chunk, depth - 1);
      assert [chunk][1..] == [];
    }
  }

  /**
   * Chunk acceptance that needs no termination assumption: an over-bound chunk is re-split as
   * before, but only the pieces with fewer tokens than the chunk are handled further; a piece
   * that did not shrink is dropped instead of being re-split forever.
   */
  function AcceptedGuarded(tokens: string -> nat, split: string -> seq<Chunk>, maxTokens: int, chunk: Chunk)
    : (r: seq<Chunk>)
    ensures tokens(chunk) <= maxTokens ==> r == [chunk]
    decreases tokens(chunk), 1
  {
    if tokens(chunk) <= maxTokens then [chunk]
    else AcceptedAllGuarded(tokens, split, maxTokens, tokens(chunk), split(chunk))
  }

  /** The guarded loop over the pieces of a chunk of `parent` tokens. */
  function AcceptedAllGuarded(tokens: string -> nat, split: string -> seq<Chunk>, maxTokens: int, parent: nat,
                              pieces: seq<Chunk>): seq<Chunk>
    decreases parent, 0, |pieces|
  {
    if pieces == [] then []
    else
      (if tokens(pieces[0]) < parent then AcceptedGuarded(tokens, split, maxTokens, pieces[0]) else [])
        + AcceptedAllGuarded(tokens, split, maxTokens, parent, pieces[1..])
  }

  /** Every chunk the guarded acceptance appends is within the bound, whatever the splitter does. */
  lemma {:induction false} AcceptedGuardedBounded(tokens: string -> nat, split: string -> seq<Chunk>,
                                                  maxTokens: int, chunk: Chunk)
    ensures forall i :: 0 <= i < |AcceptedGuarded(tokens, split, maxTokens, chunk)| ==>
      tokens(AcceptedGuarded(tokens, split, maxTokens, chunk)[i]) <= maxTokens
    decreases tokens(chunk), 1
  {
    if tokens(chunk) > maxTokens {
      AcceptedAllGuardedBounded(tokens, split, maxTokens, tokens(chunk), split(chunk));
    }
  }

  lemma {:induction false} AcceptedAllGuardedBounded(tokens: string -> nat, split: string -> seq<Chunk>,
                                                     maxTokens: int, parent: nat, pieces: seq<Chunk>)
    ensures forall i :: 0 <= i < |AcceptedAllGuarded(tokens, split, maxTokens, parent, pieces)| ==>
      tokens(AcceptedAllGuarded(tokens, split, maxTokens, parent, pieces)[i]) <= maxTokens
    decreases parent, 0, |pieces|
  {
    if pieces != [] {
      if tokens(pieces[0]) < parent {
        AcceptedGuardedBounded(tokens, split, maxTokens, pieces[0]);
      }
      AcceptedAllGuardedBounded(tokens, split, maxTokens, parent, pieces[1..]);
    }
  }

  /** Where the code as written ends (under `Shrinks`), the guarded acceptance appends the same. */
  lemma {:induction false} AcceptedGuardedAgrees(tokens: string -> nat, split: string -> seq<Chunk>,
                                                 maxTokens: int, chunk: Chunk)
    requires Shrinks(tokens, split, maxTokens)
    ensures AcceptedGuarded(tokens, split, maxTokens, chunk) == Accepted(tokens, split, maxTokens, chunk)
    decreases tokens(chunk), 1
  {
    if tokens(chunk) > maxTokens {
      var pieces := split(chunk);
      forall i | 0 <= i < |pieces| ensures tokens(pieces[i]) < tokens(chunk) {
        PieceShrinks(tokens, split, maxTokens, chunk, i);
      }
      AcceptedAllGuardedAgrees(tokens, split, maxTokens, tokens(chunk), pieces);
    }
  }

  lemma {:induction false} AcceptedAllGuardedAgrees(tokens: string -> nat, split: string -> seq<Chunk>,
                                                    maxTokens: int, parent: nat, pieces: seq<Chunk>)
    requires Shrinks(tokens, split, maxTokens)
    requires forall i :: 0 <= i < |pieces| ==> tokens(pieces[i]) < parent
    ensures AcceptedAllGuarded(tokens, split, maxTokens, parent, pieces) == AcceptedAll(tokens, split, maxTokens, pieces)
    decreases parent, 0, |pieces|
  {
    if pieces != [] {
      AcceptedGuardedAgrees(tokens, split, maxTokens, pieces[0]);
      AcceptedAllGuardedAgrees(tokens, split, maxTokens, parent, pieces[1..]);
    }
  }

  /** The files whose names end with `extension`, in listing order. */
  function Matching(extension: string, files: seq<SourceFile>): (r: seq<SourceFile>)
    ensures forall i :: 0 <= i < |r| ==> EndsWith(r[i].name, extension)
    ensures forall f :: f in files && EndsWith(f.name, extension) ==> f in r
    ensures forall f :: f in r ==> f in files
    ensures forall f :: multiset(r)[f] == if EndsWith(f.name, extension) then multiset(files)[f] else 0
    ensures IsSubsequence(r, files)
    decreases |files|
  {
    if files == [] then []
    else
      var init := Matching(extension, files[..|files| - 1]);
      var last := files[|files| - 1];
      assert files == files[..|files| - 1] + [last];
      assert forall f :: f in files ==> f in files[..|files| - 1] || f == last;
      assert multiset(files) == multiset(files[..|files| - 1]) + multiset([last]);
      if EndsWith(last.name, extension) then
        SubsequenceSnocBoth(init, files[..|files| - 1], last);
        assert multiset(init + [last]) == multiset(init) + multiset([last]);
        init + [last]
      else
        SubsequenceSnocRight(init, files[..|files| - 1], last);
        init
  }

  /** The candidate chunks `data_chunking` collects: the splits of every file it opens. */
  function MergedSplits(split: string -> seq<Chunk>, extension: string, files: seq<SourceFile>): seq<Chunk>
    decreases |files|
  {
    if files == [] then []
    else
      var last := files[|files| - 1];
      MergedSplits(split, extension, files[..|files| - 1])
        + (if EndsWith(last.name, extension) then split(last.content) else [])
  }

  /** Only the files with the extension are split: dropping the others changes nothing. */
  lemma {:induction false} MergedSplitsOfMatching(split: string -> seq<Chunk>, extension: string, files: seq<SourceFile>)
    ensures MergedSplits(split, extension, files) == MergedSplits(split, extension, Matching(extension, files))
    decreases |files|
  {
    if files != [] {
      var init := files[..|files| - 1];
      var last := files[|files| - 1];
      MergedSplitsOfMatching(split, extension, init);
      var m := Matching(extension, init);
      if EndsWith(last.name, extension) {
        assert (m + [last])[..|m + [last]| - 1] == m;
      }
    }
  }

  /** `Data_loading`: the encoding, the splitter, the bound and the accumulated chunks. */
  class DataLoading {
    const tokens: string -> nat
    const split: string -> seq<Chunk>
    const maxTokens: int
    const fileExtension: string
    var chunksList: seq<Chunk>

    /** The accumulator starts empty, once, here. */
    constructor (tokens: string -> nat, split: string -> seq<Chunk>, maxTokens: int, fileExtension: string)
      ensures this.tokens == tokens && this.split == split
      ensures this.maxTokens == maxTokens && this.fileExtension == fileExtension
      ensures chunksList == []
    {
      this.tokens := tokens;
      this.split := split;
      this.maxTokens := maxTokens;
      this.fileExtension := fileExtension;
      chunksList := [];
    }

    /** `split_chunks`: append the chunk if within the bound, else recurse into its re-split. */
    method SplitChunks(chunk: Chunk)
      requires Shrinks(tokens, split, maxTokens)
      modifies this
      ensures chunksList == old(chunksList) + Accepted(tokens, split, maxTokens, chunk)
      decreases tokens(chunk)
    {
      var tokenCount := tokens(chunk);
      if tokenCount <= maxTokens {
        chunksList := chunksList + [chunk];
      } else {
        var allSubsplits := split(chunk);
        for i := 0 to |allSubsplits|
          invariant chunksList == old(chunksList) + AcceptedAll(tokens, split, maxTokens, allSubsplits[..i])
        {
          PieceShrinks(tokens, split, maxTokens, chunk, i);
          SplitChunks(allSubsplits[i]);
          AcceptedAllPrefix(tokens, split, maxTokens, allSubsplits, i);
        }
        AcceptedOverBound(tokens, split, maxTokens, chunk);
      }
    }

    /** `validatetokenlength`: handle the inputs in index order and return the accumulator. */
    method ValidateTokenLength(data: seq<Chunk>) returns (r: seq<Chunk>)
      requires Shrinks(tokens, split, maxTokens)
      modifies this
      ensures chunksList == old(chunksList) + AcceptedAll(tokens, split, maxTokens, data)
      ensures r == chunksList
    {
      for i := 0 to |data|
        invariant chunksList == old(chunksList) + AcceptedAll(tokens, split, maxTokens, data[..i])
      {
        SplitChunks(data[i]);
        AcceptedAllPrefix(tokens, split, maxTokens, data, i);
      }
      assert data[..|data|] == data;
      r := chunksList;
    }

    /** `data_chunking`: split every file with the extension, then validate all the splits. */
    method DataChunking(files: seq<SourceFile>) returns (chunks: seq<Chunk>)
      requires Shrinks(tokens, split, maxTokens)
      modifies this
      ensures chunksList
           == old(chunksList) + AcceptedAll(tokens, split, maxTokens, MergedSplits(split, fileExtension, files))
      ensures chunks == chunksList
    {
      var mergedSplits: seq<Chunk> := [];
      for i := 0 to |files|
        invariant mergedSplits == MergedSplits(split, fileExtension, files[..i])
      {
        if EndsWith(files[i].name, fileExtension) {
          mergedSplits := mergedSplits + split(files[i].content);
        }
        assert files[..i + 1][..i] == files[..i];
      }
      assert files[..|files|] == files;
      chunks := ValidateTokenLength(mergedSplits);
    }
  }
}
