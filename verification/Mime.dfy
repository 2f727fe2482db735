/** internal/mailparse/mailparse.go: the recursive attachment reader with its depth limit and its
    cumulative byte budget, against a flat reading of the same part tree. */
module Mime {
  import opened Types
  import opened Sequences

  type byte = b: int | 0 <= b < 256

  datatype ContentType = NoContentType | BadContentType | Media(mediaType: string, name: Option<string>)

  datatype Disposition = AsAttachment | Inline | Unspecified

  datatype Encoding = Base64 | Plain | Unsupported

  /** A part of a message. A leaf's `chunks` are the non-failing reads of its decoded body, and `clean` says
      whether the reader then met the end or an error; a multipart's `clean` says the same of its boundaries. */
  datatype Part =
    | Leaf(contentType: ContentType, disposition: Disposition, filename: Option<string>, encoding: Encoding,
           chunks: seq<seq<byte>>, clean: bool)
    | Multi(parts: seq<Part>, clean: bool)

  datatype Attached = Attached(filename: string, contentType: string, content: seq<byte>)

  datatype Error = ErrSizeLimitExceeded(limit: int, actual: int) | ErrTooDeep | ErrMultipart | ErrContentType

  datatype Result = Ok(attachments: seq<Attached>) | Err(error: Error)

  datatype Decoded = Content(bytes: seq<byte>) | Skip | TooBig(actual: int)

  const MAX_MULTIPART_DEPTH := 10

  predicate IsAttachment(leaf: Part)
    requires leaf.Leaf?
  {
    leaf.contentType.Media? &&
    match leaf.disposition
    case AsAttachment => true
    case Inline => false
    case Unspecified => leaf.contentType.name.Some?
  }

  function ResolveFilename(leaf: Part): string
    requires leaf.Leaf? && leaf.contentType.Media?
  {
    if leaf.filename.Some? then leaf.filename.value
    else if leaf.contentType.name.Some? then leaf.contentType.name.value
    else ""
  }

  // ---- the flat reading ----

  /** All leaves in document order. */
  function Leaves(part: Part): (leaves: seq<Part>)
    ensures forall l :: l in leaves ==> l.Leaf?
    decreases part, 2
  {
    if part.Leaf? then [part] else LeavesOf(part, |part.parts|)
  }

  function LeavesOf(part: Part, k: nat): (leaves: seq<Part>)
    requires part.Multi? && k <= |part.parts|
    ensures forall l :: l in leaves ==> l.Leaf?
    decreases part, 1, k
  {
    if k == 0 then [] else LeavesOf(part, k - 1) + Leaves(part.parts[k - 1])
  }

  /** The body of this leaf is read at all. */
  predicate IsRead(leaf: Part) {
    leaf.Leaf? && IsAttachment(leaf) && leaf.encoding != Unsupported
  }

  function AttachedFrom(leaf: Part): Attached
    requires IsRead(leaf)
  {
    Attached(ResolveFilename(leaf), leaf.contentType.mediaType, Flatten(leaf.chunks))
  }

  function AttachmentsOf(leaves: seq<Part>): seq<Attached>
    requires forall l :: l in leaves ==> l.Leaf?
  {
    if leaves == [] then []
    else
      var l := leaves[|leaves| - 1];
      AttachmentsOf(leaves[..|leaves| - 1]) + if IsRead(l) && l.clean then [AttachedFrom(l)] else []
  }

  /** Bytes that count against the budget, those of leaves that are later dropped included. */
  function BytesRead(leaves: seq<Part>): nat {
    if leaves == [] then 0
    else
      var l := leaves[|leaves| - 1];
      BytesRead(leaves[..|leaves| - 1]) + if IsRead(l) then |Flatten(l.chunks)| else 0
  }

  /** How many multiparts are nested in one another. */
  function Levels(part: Part): nat
    decreases part, 2
  {
    if part.Leaf? then 0 else 1 + LevelsOf(part, |part.parts|)
  }

  function LevelsOf(part: Part, k: nat): nat
    requires part.Multi? && k <= |part.parts|
    decreases part, 1, k
  {
    if k == 0 then 0
    else
      var a, b := LevelsOf(part, k - 1), Levels(part.parts[k - 1]);
      if a < b then b else a
  }

  /** Every multipart ends properly. */
  predicate AllClean(part: Part)
    decreases part, 2
  {
    part.Leaf? || (part.clean && AllCleanOf(part, |part.parts|))
  }

  predicate AllCleanOf(part: Part, k: nat)
    requires part.Multi? && k <= |part.parts|
    decreases part, 1, k
  {
    k == 0 || (AllCleanOf(part, k - 1) && AllClean(part.parts[k - 1]))
  }

  function TotalSize(atts: seq<Attached>): nat {
    if atts == [] then 0 else TotalSize(atts[..|atts| - 1]) + |atts[|atts| - 1].content|
  }

  /** The budget holds. */
  predicate InBudget(maxBytes: int, n: int) {
    maxBytes <= 0 || n <= maxBytes
  }

  /** What one part adds to the outcome. `depth` is that of the multipart around it. */
  ghost predicate Extracted(maxBytes: int, part: Part, depth: int, before: int, after: int, r: Result) {
    && (r.Ok? <==> Levels(part) + depth <= MAX_MULTIPART_DEPTH && AllClean(part) && InBudget(maxBytes, before + BytesRead(Leaves(part))))
    && (r.Ok? ==> r.attachments == AttachmentsOf(Leaves(part)) && after == before + BytesRead(Leaves(part)))
    && (r.Err? ==> Justified(maxBytes, part, depth, before, r.error))
  }

  /** Each error has its cause somewhere in the part. */
  ghost predicate Justified(maxBytes: int, part: Part, depth: int, before: int, e: Error) {
    match e
    case ErrTooDeep => Levels(part) + depth > MAX_MULTIPART_DEPTH
    case ErrMultipart => !AllClean(part)
    case ErrSizeLimitExceeded(limit, actual) =>
      0 < limit == maxBytes < actual && !InBudget(maxBytes, before + BytesRead(Leaves(part)))
    case ErrContentType => false
  }

  /** The first k children of a multipart at this depth have been read without an error. */
  ghost predicate ExtractedOf(maxBytes: int, part: Part, depth: int, k: nat, before: int, after: int, atts: seq<Attached>)
    requires part.Multi? && k <= |part.parts|
  {
    && LevelsOf(part, k) + depth <= MAX_MULTIPART_DEPTH && AllCleanOf(part, k)
    && InBudget(maxBytes, before + BytesRead(LeavesOf(part, k)))
    && after == before + BytesRead(LeavesOf(part, k))
    && atts == AttachmentsOf(LeavesOf(part, k))
  }

  lemma ChildDone(maxBytes: int, part: Part, depth: int, k: nat, before: int, mid: int, after: int, atts: seq<Attached>, r: Result)
    requires part.Multi? && k < |part.parts| && r.Ok?
    requires ExtractedOf(maxBytes, part, depth, k, before, mid, atts)
    requires Extracted(maxBytes, part.parts[k], depth, mid, after, r)
    ensures ExtractedOf(maxBytes, part, depth, k + 1, before, after, atts + r.attachments)
  {
    OneMore(part, k);
  }

  lemma ChildFailed(maxBytes: int, part: Part, depth: int, k: nat, before: int, mid: int, after: int, atts: seq<Attached>, r: Result)
    requires part.Multi? && k < |part.parts| && r.Err?
    requires ExtractedOf(maxBytes, part, depth, k, before, mid, atts)
    requires Extracted(maxBytes, part.parts[k], depth, mid, after, r)
    ensures Extracted(maxBytes, part, depth - 1, before, after, r)
  {
    ChildBounds(part, k);
    var child := part.parts[k];
    assert mid == before + BytesRead(LeavesOf(part, k));
    assert !(Levels(child) + depth <= MAX_MULTIPART_DEPTH && AllClean(child) && InBudget(maxBytes, mid + BytesRead(Leaves(child))));
  }

  lemma ChildBounds(part: Part, k: nat)
    requires part.Multi? && k < |part.parts|
    ensures Levels(part) >= 1 + Levels(part.parts[k])
    ensures !AllClean(part.parts[k]) ==> !AllClean(part)
    ensures BytesRead(LeavesOf(part, k)) + BytesRead(Leaves(part.parts[k])) <= BytesRead(Leaves(part))
  {
    OneMore(part, k);
    FailureSpreads(part, k);
    BytesGrow(part, k + 1);
  }

  class Extractor {
    const maxBytes: int
    var accumulated: int

    constructor (maxBytes: int)
      ensures this.maxBytes == maxBytes && accumulated == 0
    {
      this.maxBytes, accumulated := maxBytes, 0;
    }

    predicate Within(n: int) {
      InBudget(maxBytes, n)
    }

    /** Reads one body; what was read counts even if the body is dropped. */
    method DecodeContent(leaf: Part) returns (r: Decoded)
      requires leaf.Leaf? && Within(accumulated)
      modifies `accumulated
      ensures leaf.encoding == Unsupported ==> r == Skip && accumulated == old(accumulated)
      ensures leaf.encoding != Unsupported ==>
                (r.TooBig? <==> !Within(old(accumulated) + |Flatten(leaf.chunks)|))
      ensures leaf.encoding != Unsupported && !r.TooBig? ==> accumulated == old(accumulated) + |Flatten(leaf.chunks)|
      ensures leaf.encoding != Unsupported && !r.TooBig? ==> r == if leaf.clean then Content(Flatten(leaf.chunks)) else Skip
      ensures r.TooBig? ==> r.actual == accumulated > maxBytes
    {
      if leaf.encoding == Unsupported {
        return Skip;
      }
      var content: seq<byte> := [];
      for i := 0 to |leaf.chunks|
        invariant content == Flatten(leaf.chunks[..i])
        invariant accumulated == old(accumulated) + |content|
        invariant Within(accumulated)
      {
        var buf := leaf.chunks[i];
        assert leaf.chunks[..i + 1][..i] == leaf.chunks[..i];
        accumulated := accumulated + |buf|;
        if maxBytes > 0 && accumulated > maxBytes {
          FlattenPrefix(leaf.chunks, i + 1);
          return TooBig(accumulated);
        }
        content := content + buf;
      }
      assert leaf.chunks[..|leaf.chunks|] == leaf.chunks;
      return if leaf.clean then Content(content) else Skip;
    }

    method ExtractParts(part: Part, depth: nat) returns (r: Result)
      requires part.Multi? && depth <= MAX_MULTIPART_DEPTH + 1 && Within(accumulated)
      modifies `accumulated
      ensures Extracted(maxBytes, part, depth - 1, old(accumulated), accumulated, r)
      ensures r.Ok? ==> Within(accumulated)
      decreases part, 1
    {
      if depth > MAX_MULTIPART_DEPTH {
        return Err(ErrTooDeep);
      }
      var results: seq<Attached> := [];
      for i := 0 to |part.parts|
        invariant ExtractedOf(maxBytes, part, depth, i, old(accumulated), accumulated, results)
      {
        ghost var mid := accumulated;
        var attachments := ProcessPart(part.parts[i], depth);
        if attachments.Err? {
          ChildFailed(maxBytes, part, depth, i, old(accumulated), mid, accumulated, results, attachments);
          return attachments;
        }
        ChildDone(maxBytes, part, depth, i, old(accumulated), mid, accumulated, results, attachments);
        results := results + attachments.attachments;
      }
      if !part.clean {
        return Err(ErrMultipart);
      }
      return Ok(results);
    }

    method ProcessPart(part: Part, depth: nat) returns (r: Result)
      requires depth <= MAX_MULTIPART_DEPTH && Within(accumulated)
      modifies `accumulated
      ensures Extracted(maxBytes, part, depth, old(accumulated), accumulated, r)
      ensures r.Ok? ==> Within(accumulated)
      decreases part, 2
    {
      if part.Multi? {
        r := ExtractParts(part, depth + 1);
        return;
      }
      r := ExtractLeaf(part, depth);
    }

    method ExtractLeaf(leaf: Part, depth: nat) returns (r: Result)
      requires leaf.Leaf? && depth <= MAX_MULTIPART_DEPTH && Within(accumulated)
      modifies `accumulated
      ensures Extracted(maxBytes, leaf, depth, old(accumulated), accumulated, r)
      ensures r.Ok? ==> Within(accumulated)
    {
      SingleLeaf(leaf);
      if !IsAttachment(leaf) {
        return Ok([]);
      }
      var decoded := DecodeContent(leaf);
      match decoded {
        case TooBig(actual) => return Err(ErrSizeLimitExceeded(maxBytes, actual));
        case Skip => return Ok([]);
        case Content(bytes) => return Ok([Attached(ResolveFilename(leaf), leaf.contentType.mediaType, bytes)]);
      }
    }

    /** The entry point. A content type that cannot be parsed is an error here, a skipped part below. */
    method ExtractAttachments(msg: Part) returns (r: Result, ghost at: seq<nat>)
      requires accumulated == 0
      modifies `accumulated
      ensures r.Ok? <==>
              && (msg.Leaf? ==> !msg.contentType.BadContentType?)
              && Levels(msg) <= MAX_MULTIPART_DEPTH + 1 && AllClean(msg) && Within(BytesRead(Leaves(msg)))
      ensures r.Ok? ==> r.attachments == AttachmentsOf(Leaves(msg))
      ensures r.Ok? && maxBytes > 0 ==> TotalSize(r.attachments) <= accumulated <= maxBytes
      ensures r.Ok? ==> accumulated == BytesRead(Leaves(msg))
      // attachment j is that of leaf at[j], in document order; the leaves that give one are those with a media type, a
      // supported encoding and a readable body that are marked as attachment, or unmarked and named
      ensures r.Ok? ==> |at| == |r.attachments| && forall i, j :: 0 <= i < j < |at| ==> at[i] < at[j]
      ensures r.Ok? ==> forall j :: 0 <= j < |at| ==>
                && at[j] < |Leaves(msg)|
                && var leaf := Leaves(msg)[at[j]];
                   && leaf.contentType.Media? && leaf.encoding != Unsupported && leaf.clean
                   && (leaf.disposition == AsAttachment || (leaf.disposition == Unspecified && leaf.contentType.name.Some?))
                   && r.attachments[j].contentType == leaf.contentType.mediaType
                   && r.attachments[j].content == Flatten(leaf.chunks)
                   && r.attachments[j].filename == if leaf.filename.Some? then leaf.filename.value
                                                   else if leaf.contentType.name.Some? then leaf.contentType.name.value else ""
      ensures r.Ok? ==> forall i :: 0 <= i < |Leaves(msg)| && i !in at ==>
                var leaf := Leaves(msg)[i];
                || !leaf.contentType.Media? || leaf.encoding == Unsupported || !leaf.clean
                || leaf.disposition == Inline || (leaf.disposition == Unspecified && leaf.contentType.name.None?)
      // eleven nested multiparts pass, twelve do not
      ensures r.Ok? ==> Levels(msg) <= 11
      ensures r == Err(ErrTooDeep) ==> Levels(msg) >= 12
      ensures r == Err(ErrMultipart) ==> !AllClean(msg)
      ensures r == Err(ErrContentType) <==> msg.Leaf? && msg.contentType.BadContentType?
      ensures r.Err? && r.error.ErrSizeLimitExceeded? ==>
                0 < r.error.limit == maxBytes < r.error.actual && !Within(BytesRead(Leaves(msg)))
    {
      at := AttachmentPositions(Leaves(msg));
      r := Extract(msg);
    }

    /** A multipart or a single part. */
    method Extract(msg: Part) returns (r: Result)
      requires accumulated == 0
      modifies `accumulated
      ensures r.Ok? <==>
              && (msg.Leaf? ==> !msg.contentType.BadContentType?)
              && Levels(msg) <= MAX_MULTIPART_DEPTH + 1 && AllClean(msg) && Within(BytesRead(Leaves(msg)))
      ensures r.Ok? ==> r.attachments == AttachmentsOf(Leaves(msg))
      ensures r.Ok? && maxBytes > 0 ==> TotalSize(r.attachments) <= accumulated <= maxBytes
      ensures r.Ok? ==> accumulated == BytesRead(Leaves(msg))
      ensures r == Err(ErrTooDeep) ==> Levels(msg) > MAX_MULTIPART_DEPTH + 1
      ensures r == Err(ErrMultipart) ==> !AllClean(msg)
      ensures r == Err(ErrContentType) <==> msg.Leaf? && msg.contentType.BadContentType?
      ensures r.Err? && r.error.ErrSizeLimitExceeded? ==>
                0 < r.error.limit == maxBytes < r.error.actual && !Within(BytesRead(Leaves(msg)))
    {
      ReturnedAreCounted(Leaves(msg));
      if msg.Leaf? {
        SingleLeaf(msg);
        if msg.contentType.BadContentType? {
          return Err(ErrContentType);
        }
        r := ExtractLeaf(msg, 0);
      } else {
        r := ExtractParts(msg, 0);
      }
    }
  }

  // ---- lemmas about the flat reading ----

  lemma {:induction false} FlattenPrefix(chunks: seq<seq<byte>>, k: nat)
    requires k <= |chunks|
    ensures |Flatten(chunks[..k])| <= |Flatten(chunks)|
    decreases |chunks| - k
  {
    if k == |chunks| {
      assert chunks[..k] == chunks;
    } else {
      FlattenPrefix(chunks, k + 1);
      assert chunks[..k + 1][..k] == chunks[..k];
    }
  }

  /** Where the leaves are that give an attachment. */
  function Positions(leaves: seq<Part>): seq<nat> {
    if leaves == [] then []
    else
      var n := |leaves| - 1;
      Positions(leaves[..n]) + if IsRead(leaves[n]) && leaves[n].clean then [n] else []
  }

  lemma {:induction false} PositionsGrow(leaves: seq<Part>)
    ensures forall j :: 0 <= j < |Positions(leaves)| ==> Positions(leaves)[j] < |leaves|
    ensures forall i, j :: 0 <= i < j < |Positions(leaves)| ==> Positions(leaves)[i] < Positions(leaves)[j]
  {
    if leaves != [] {
      PositionsGrow(leaves[..|leaves| - 1]);
    }
  }

  /** Which leaves these are, in their own fields. */
  lemma {:induction false} PositionsAre(leaves: seq<Part>, i: nat)
    requires i < |leaves| && leaves[i].Leaf?
    ensures i in Positions(leaves) <==>
            var leaf := leaves[i];
            && leaf.contentType.Media? && leaf.encoding != Unsupported && leaf.clean
            && (leaf.disposition == AsAttachment || (leaf.disposition == Unspecified && leaf.contentType.name.Some?))
  {
    var n := |leaves| - 1;
    var init := Positions(leaves[..n]);
    InAppend(init, if IsRead(leaves[n]) && leaves[n].clean then [n] else []);
    if i < n {
      PositionsAre(leaves[..n], i);
    } else {
      PositionsGrow(leaves[..n]);
    }
  }

  /** And what each gives. */
  lemma {:induction false} PositionsGive(leaves: seq<Part>, j: nat)
    requires forall l :: l in leaves ==> l.Leaf?
    requires j < |Positions(leaves)|
    ensures |AttachmentsOf(leaves)| == |Positions(leaves)| && Positions(leaves)[j] < |leaves|
    ensures var leaf := leaves[Positions(leaves)[j]];
      && leaf.contentType.Media?
      && AttachmentsOf(leaves)[j].contentType == leaf.contentType.mediaType
      && AttachmentsOf(leaves)[j].content == Flatten(leaf.chunks)
      && AttachmentsOf(leaves)[j].filename == if leaf.filename.Some? then leaf.filename.value
                                              else if leaf.contentType.name.Some? then leaf.contentType.name.value else ""
  {
    var n := |leaves| - 1;
    PositionsCount(leaves);
    PositionsCount(leaves[..n]);
    if j < |Positions(leaves[..n])| {
      PositionsGive(leaves[..n], j);
    }
  }

  lemma {:induction false} PositionsCount(leaves: seq<Part>)
    requires forall l :: l in leaves ==> l.Leaf?
    ensures |AttachmentsOf(leaves)| == |Positions(leaves)|
  {
    if leaves != [] {
      PositionsCount(leaves[..|leaves| - 1]);
    }
  }

  lemma AttachmentPositions(leaves: seq<Part>) returns (at: seq<nat>)
    requires forall l :: l in leaves ==> l.Leaf?
    ensures |at| == |AttachmentsOf(leaves)| && forall i, j :: 0 <= i < j < |at| ==> at[i] < at[j]
    ensures forall j :: 0 <= j < |at| ==>
              && at[j] < |leaves|
              && var leaf := leaves[at[j]];
                 && leaf.contentType.Media? && leaf.encoding != Unsupported && leaf.clean
                 && (leaf.disposition == AsAttachment || (leaf.disposition == Unspecified && leaf.contentType.name.Some?))
                 && AttachmentsOf(leaves)[j].contentType == leaf.contentType.mediaType
                 && AttachmentsOf(leaves)[j].content == Flatten(leaf.chunks)
                 && AttachmentsOf(leaves)[j].filename == if leaf.filename.Some? then leaf.filename.value
                                                         else if leaf.contentType.name.Some? then leaf.contentType.name.value else ""
    ensures forall i :: 0 <= i < |leaves| && i !in at ==>
              var leaf := leaves[i];
              || !leaf.contentType.Media? || leaf.encoding == Unsupported || !leaf.clean
              || leaf.disposition == Inline || (leaf.disposition == Unspecified && leaf.contentType.name.None?)
  {
    at := Positions(leaves);
    PositionsGrow(leaves);
    PositionsCount(leaves);
    forall j | 0 <= j < |at| {
      PositionsGive(leaves, j);
    }
    forall j | 0 <= j < |at|
      ensures var leaf := leaves[at[j]];
        && leaf.encoding != Unsupported && leaf.clean
        && (leaf.disposition == AsAttachment || (leaf.disposition == Unspecified && leaf.contentType.name.Some?))
    {
      assert at[j] in at && leaves[at[j]] in leaves;
      PositionsAre(leaves, at[j]);
    }
    forall i | 0 <= i < |leaves| && i !in at
      ensures var leaf := leaves[i];
        || !leaf.contentType.Media? || leaf.encoding == Unsupported || !leaf.clean
        || leaf.disposition == Inline || (leaf.disposition == Unspecified && leaf.contentType.name.None?)
    {
      assert leaves[i] in leaves;
      PositionsAre(leaves, i);
    }
  }

  /** The bytes of one leaf count as soon as its body is read, whether or not it is then dropped. */
  lemma BytesOfOne(leaf: Part)
    requires leaf.Leaf?
    ensures BytesRead([leaf]) ==
            if leaf.contentType.Media? && leaf.encoding != Unsupported
               && (leaf.disposition == AsAttachment || (leaf.disposition == Unspecified && leaf.contentType.name.Some?))
            then |Flatten(leaf.chunks)| else 0
  {
    SingleLeaf(leaf);
  }

  /** The leaves of a multipart are those of its parts, part by part. */
  lemma LeavesInOrder(part: Part)
    requires part.Multi?
    ensures Leaves(part) == Flatten(seq(|part.parts|, i requires 0 <= i < |part.parts| => Leaves(part.parts[i])))
  {
    var all := seq(|part.parts|, i requires 0 <= i < |part.parts| => Leaves(part.parts[i]));
    LeavesOfPrefix(part, |part.parts|, all);
    assert all[..|all|] == all;
  }

  lemma {:induction false} LeavesOfPrefix(part: Part, k: nat, all: seq<seq<Part>>)
    requires part.Multi? && k <= |part.parts| == |all| && forall i :: 0 <= i < |all| ==> all[i] == Leaves(part.parts[i])
    ensures LeavesOf(part, k) == Flatten(all[..k])
  {
    if k > 0 {
      LeavesOfPrefix(part, k - 1, all);
      assert all[..k][..k - 1] == all[..k - 1];
    }
  }

  /** A multipart is one level above its deepest part. */
  lemma LevelsMean(part: Part)
    ensures part.Leaf? ==> Levels(part) == 0
    ensures part.Multi? ==>
              && (forall p :: p in part.parts ==> Levels(p) < Levels(part))
              && (Levels(part) == 1 || exists p :: p in part.parts && Levels(part) == 1 + Levels(p))
              && Levels(part) >= 1
  {
    if part.Multi? {
      LevelsOfMean(part, |part.parts|);
    }
  }

  lemma {:induction false} LevelsOfMean(part: Part, k: nat)
    requires part.Multi? && k <= |part.parts|
    ensures forall i :: 0 <= i < k ==> Levels(part.parts[i]) <= LevelsOf(part, k)
    ensures LevelsOf(part, k) == 0 || exists i :: 0 <= i < k && LevelsOf(part, k) == Levels(part.parts[i])
  {
    if k > 0 {
      LevelsOfMean(part, k - 1);
    }
  }

  /** Every multipart in it has been read to its end. */
  lemma CleanMeans(part: Part)
    ensures AllClean(part) <==> part.Leaf? || (part.clean && forall p :: p in part.parts ==> AllClean(p))
  {
    if part.Multi? {
      CleanOfMeans(part, |part.parts|);
    }
  }

  lemma {:induction false} CleanOfMeans(part: Part, k: nat)
    requires part.Multi? && k <= |part.parts|
    ensures AllCleanOf(part, k) <==> forall i :: 0 <= i < k ==> AllClean(part.parts[i])
  {
    if k > 0 {
      CleanOfMeans(part, k - 1);
    }
  }

  lemma SingleLeaf(leaf: Part)
    requires leaf.Leaf?
    ensures BytesRead(Leaves(leaf)) == if IsRead(leaf) then |Flatten(leaf.chunks)| else 0
    ensures AttachmentsOf(Leaves(leaf)) ==
            if IsRead(leaf) && leaf.clean then [AttachedFrom(leaf)] else []
  {
    assert [leaf][..0] == [];
  }

  lemma {:induction false} FlatAppend(a: seq<Part>, b: seq<Part>)
    requires forall l :: l in a + b ==> l.Leaf?
    ensures AttachmentsOf(a + b) == AttachmentsOf(a) + AttachmentsOf(b)
    ensures BytesRead(a + b) == BytesRead(a) + BytesRead(b)
  {
    if b == [] {
      assert a + b == a;
    } else {
      var n := |b| - 1;
      AppendLast(a, b);
      FlatAppend(a, b[..n]);
    }
  }

  /** The flat reading of one more child. */
  lemma OneMore(part: Part, k: nat)
    requires part.Multi? && k < |part.parts|
    ensures AttachmentsOf(LeavesOf(part, k + 1)) == AttachmentsOf(LeavesOf(part, k)) + AttachmentsOf(Leaves(part.parts[k]))
    ensures BytesRead(LeavesOf(part, k + 1)) == BytesRead(LeavesOf(part, k)) + BytesRead(Leaves(part.parts[k]))
  {
    FlatAppend(LeavesOf(part, k), Leaves(part.parts[k]));
  }

  lemma {:induction false} BytesGrow(part: Part, k: nat)
    requires part.Multi? && k <= |part.parts|
    ensures BytesRead(LeavesOf(part, k)) <= BytesRead(Leaves(part))
    decreases |part.parts| - k
  {
    if k < |part.parts| {
      OneMore(part, k);
      BytesGrow(part, k + 1);
    }
  }

  /** A child that is too deep, or broken, makes the whole multipart so. */
  lemma {:induction false} FailureSpreads(part: Part, k: nat)
    requires part.Multi? && k < |part.parts|
    ensures Levels(part) >= 1 + Levels(part.parts[k])
    ensures !AllClean(part.parts[k]) ==> !AllClean(part)
  {
    var i := k + 1;
    while i < |part.parts|
      invariant k < i <= |part.parts|
      invariant LevelsOf(part, i) >= Levels(part.parts[k])
      invariant !AllClean(part.parts[k]) ==> !AllCleanOf(part, i)
    {
      i := i + 1;
    }
  }

  /** What is returned has been counted. */
  lemma {:induction false} ReturnedAreCounted(leaves: seq<Part>)
    requires forall l :: l in leaves ==> l.Leaf?
    ensures TotalSize(AttachmentsOf(leaves)) <= BytesRead(leaves)
  {
    if leaves != [] {
      var n := |leaves| - 1;
      ReturnedAreCounted(leaves[..n]);
      var init := AttachmentsOf(leaves[..n]);
      var l := leaves[n];
      if IsRead(l) && l.clean {
        var a := AttachedFrom(l);
        assert (init + [a])[..|init|] == init;
      } else {
        assert init + [] == init;
      }
    }
  }
}
