/** Which chunks the host reads from an image file, and the plan that they make. */
module ImagePlans {
  import opened Bytes
  import opened Device
  import opened HostProtocol
  import opened EndToEnd
  import opened InStep
  import opened Completion

  /** Full-length reads cut the image into pieces of 1020 bytes and one last piece. */
  function Pieces(image: seq<byte>): (chunks: seq<seq<byte>>)
    decreases |image|
  {
    if image == [] then []
    else if |image| <= MAX_DATA then [image]
    else [image[..MAX_DATA]] + Pieces(image[MAX_DATA..])
  }

  /** The size divided by 1020, rounded up. */
  function PieceCount(size: nat): nat {
    (size + MAX_DATA - 1) / MAX_DATA
  }

  lemma {:induction false} FlattenFront<T>(first: seq<T>, rest: seq<seq<T>>)
    ensures Flatten([first] + rest) == first + Flatten(rest)
    decreases |rest|
  {
    if rest == [] {
      assert Flatten([first]) == Flatten([]) + first;
    } else {
      var n := |rest|;
      assert ([first] + rest)[..n] == [first] + rest[..n - 1] && ([first] + rest)[n] == rest[n - 1];
      FlattenFront(first, rest[..n - 1]);
      assert first + Flatten(rest[..n - 1]) + rest[n - 1] == first + (Flatten(rest[..n - 1]) + rest[n - 1]);
    }
  }

  /** The pieces concatenate to the image, there are as many as the division rounds up to, and every one but the
      last is full and hence word-sized. */
  lemma {:induction false} PiecesExact(image: seq<byte>)
    ensures Flatten(Pieces(image)) == image
    ensures |Pieces(image)| == PieceCount(|image|)
    ensures forall c :: c in Pieces(image) ==> 0 < |c| <= MAX_DATA
    ensures forall j :: 0 <= j < |Pieces(image)| - 1 ==> |Pieces(image)[j]| == MAX_DATA
    decreases |image|
  {
    if image == [] {
    } else if |image| <= MAX_DATA {
      assert Flatten([image]) == Flatten([]) + image;
    } else {
      PiecesExact(image[MAX_DATA..]);
      FlattenFront(image[..MAX_DATA], Pieces(image[MAX_DATA..]));
      assert image[..MAX_DATA] + image[MAX_DATA..] == image;
    }
  }

  // ----- Reads of any length -----

  /** An image file: what is left of it, how much of it is wanted, how much each read grants, and the reads so far. */
  datatype Source = Source(image: seq<byte>, size: nat, grant: nat -> nat, calls: nat)
  {
    /** The length of the next read: never more than asked for or left, and at least one byte. */
    function Next(): nat {
      Min(Min(Min(MAX_DATA, size), |image|), if grant(calls) > 0 then grant(calls) else 1)
    }

    /** What the next read leaves. */
    function Rest(): Source
      requires Next() <= size && Next() <= |image|
    {
      Source(image[Next()..], size - Next(), grant, calls + 1)
    }
  }

  /** The chunks that are read until the wanted size is reached or the image ends. */
  function Cuts(s: Source): (chunks: seq<seq<byte>>)
    decreases s.size
  {
    if s.size == 0 || s.image == [] then [] else [s.image[..s.Next()]] + Cuts(s.Rest())
  }

  lemma {:induction false} CutsExact(s: Source)
    ensures Flatten(Cuts(s)) == s.image[..Min(s.size, |s.image|)]
    ensures forall c :: c in Cuts(s) ==> 0 < |c| <= MAX_DATA
    decreases s.size
  {
    hide Flatten;
    if s.size == 0 || s.image == [] {
      NothingFlattened();
    } else {
      var m, n := Min(s.size, |s.image|), s.Next();
      CutsExact(s.Rest());
      FlattenFront(s.image[..n], Cuts(s.Rest()));
      PrefixParts(s.image, n, m);
    }
  }

  lemma NothingFlattened()
    ensures Flatten<byte>([]) == []
  {
  }

  lemma PrefixParts(image: seq<byte>, n: nat, m: nat)
    requires n <= m <= |image|
    ensures image[..m] == image[..n] + image[n..][..m - n]
  {
  }

  /** With full-length reads these are the pieces of the image. */
  lemma {:induction false} CutsArePieces(s: Source)
    requires s.size <= |s.image| && forall k :: s.grant(k) >= MAX_DATA
    ensures Cuts(s) == Pieces(s.image[..s.size])
    decreases s.size
  {
    if s.size > 0 {
      CutsArePieces(s.Rest());
      assert s.image[..s.size][..s.Next()] == s.image[..s.Next()];
      assert s.image[..s.size][s.Next()..] == s.Rest().image[..s.Rest().size];
      if s.size <= MAX_DATA {
        assert Cuts(s.Rest()) == [];
      }
    }
  }

  /** The chunks that a too short image never yields, filled up with zeros. */
  function Filler(s: Source): seq<seq<byte>> {
    Pieces(seq(s.size - Min(s.size, |s.image|), _ => 0))
  }

  /** The plan the client follows; an image that cannot be announced at all leaves only a plan's greeting. */
  function ClientPlan(infos: nat, version: seq<byte>, digest: seq<byte>, s: Source): Plan {
    if s.size <= U32_MAX && EncodeBegin(s.size, digest, version).Ok?
    then Plan(infos, version, digest, Cuts(s) + Filler(s))
    else Plan(infos, [], seq(DIGEST_SIZE, _ => 0), [[0]])
  }

  lemma ClientPlanValid(infos: nat, version: seq<byte>, digest: seq<byte>, s: Source)
    ensures ClientPlan(infos, version, digest, s).Valid() && ClientPlan(infos, version, digest, s).infos == infos
    ensures s.size <= U32_MAX && EncodeBegin(s.size, digest, version).Ok? ==>
      var p := ClientPlan(infos, version, digest, s);
      && |p.Image()| == s.size && Cuts(s) <= p.chunks && p.version == version && p.digest == digest
      && (s.size <= |s.image| ==> p.chunks == Cuts(s) && p.Image() == s.image[..s.size])
      && (s.size > |s.image| ==> |Cuts(s)| < |p.chunks|)
  {
    hide Cuts, Filler, Flatten, EncodeBegin;
    if s.size <= U32_MAX && EncodeBegin(s.size, digest, version).Ok? {
      AnnouncedFields(s.size, digest, version);
      FilledPlan(s);
    } else {
      OneZero();
    }
  }

  lemma AnnouncedFields(size: u32, digest: seq<byte>, version: seq<byte>)
    requires EncodeBegin(size, digest, version).Ok?
    ensures size > 0 && |digest| == DIGEST_SIZE && |version| <= MAX_VERSION
  {
  }

  lemma OneZero()
    ensures Flatten<byte>([[0]]) == [0]
  {
    assert Flatten<byte>([[0]]) == Flatten<byte>([]) + [0];
  }

  /** The chunks read and the filler are chunks of a plan for exactly the wanted size. */
  lemma FilledPlan(s: Source)
    ensures var filler := Filler(s);
      && |Flatten(Cuts(s) + filler)| == s.size && (forall c :: c in Cuts(s) + filler ==> 0 < |c| <= MAX_DATA)
      && (s.size <= |s.image| ==> filler == [] && Flatten(Cuts(s) + filler) == s.image[..s.size])
      && (s.size > |s.image| ==> |filler| > 0)
  {
    hide Pieces, Cuts, Flatten;
    var zeros := seq(s.size - Min(s.size, |s.image|), _ => 0);
    CutsExact(s);
    PiecesExact(zeros);
    FlattenAppend(Cuts(s), Pieces(zeros));
    NothingFlattened();
    if s.size <= |s.image| {
      assert zeros == [];
      NoPieces();
      assert Cuts(s) + [] == Cuts(s);
    } else {
      assert Flatten(Pieces(zeros)) == zeros != [];
    }
  }

  lemma NoPieces()
    ensures Pieces([]) == []
  {
  }

  // ----- The reads of one transfer -----

  /** The first `j` chunks of the plan have been read, and `now` is what is left of the image. */
  ghost predicate Reading(p: Plan, s: Source, j: nat, now: Source) {
    && j <= |Cuts(s)| && Cuts(s) <= p.chunks && Cuts(s)[j..] == Cuts(now) && now.grant == s.grant
    && p.Offset(j) + now.size == s.size && p.Offset(j) + |now.image| == |s.image|
  }

  lemma ReadingStarts(p: Plan, s: Source)
    requires Cuts(s) <= p.chunks
    ensures Reading(p, s, 0, s)
  {
    hide Cuts;
    assert p.chunks[..0] == [] && Cuts(s)[0..] == Cuts(s);
  }

  /** The next chunk read is the next chunk of the plan. */
  lemma ReadingNext(p: Plan, s: Source, j: nat, now: Source)
    requires Reading(p, s, j, now) && now.size > 0 && now.image != []
    ensures j < |p.chunks| && p.chunks[j] == now.image[..now.Next()] && Reading(p, s, j + 1, now.Rest())
    ensures 0 < now.Next() <= MAX_DATA && p.Offset(j + 1) == p.Offset(j) + now.Next()
  {
    hide Flatten;
    assert Cuts(now) == [now.image[..now.Next()]] + Cuts(now.Rest());
    assert Cuts(s)[j] == Cuts(s)[j..][0] && Cuts(s)[j + 1..] == Cuts(s)[j..][1..];
    OffsetBound(p, j);
  }

  /** Nothing is left to be read, or nothing is left to be wanted. */
  lemma ReadingEnds(p: Plan, s: Source, j: nat, now: Source)
    requires Reading(p, s, j, now) && (now.size == 0 || now.image == [])
    ensures j == |Cuts(s)|
    ensures now.size > 0 ==> |s.image| < s.size
    ensures now.size == 0 ==> s.size <= |s.image|
  {
  }

  // ----- Full-length reads -----

  lemma {:induction false} PieceOffsets(image: seq<byte>, j: nat)
    requires j <= |Pieces(image)|
    ensures |Flatten(Pieces(image)[..j])| == Min(j * MAX_DATA, |image|)
    decreases j
  {
    PiecesExact(image);
    if j > 0 {
      PieceOffsets(image, j - 1);
      FlattenNext(Pieces(image), j - 1);
      if j == |Pieces(image)| {
        assert Pieces(image)[..j] == Pieces(image);
      }
    }
  }

  lemma PiecePayload(p: Plan, image: seq<byte>, j: nat)
    requires p.Valid() && p.chunks == Pieces(image) && |image| <= U32_MAX && j < |p.chunks|
    ensures PayloadAt(p, p.infos + 2 + j) == Le32(Min(j * MAX_DATA, |image|)) + p.chunks[j]
  {
    hide Pieces, PieceCount, EncodeBegin, Le32, Flatten;
    PieceOffsets(image, j);
    OffsetBound(p, j);
  }

  lemma FullPiecesAreWords(p: Plan, image: seq<byte>)
    requires p.chunks == Pieces(image)
    ensures WordSized(p)
  {
    hide Pieces, PieceCount;
    PiecesExact(image);
  }

  /** For every image the wire format can announce, full-length reads make a plan for exactly that image, with
      ceil(size / 1020) DATA requests at the offsets 0, 1020, 2040 and so on, all but the last word-sized. */
  lemma FullReadsMakeAPlan(infos: nat, version: seq<byte>, digest: seq<byte>, image: seq<byte>)
    requires |version| <= MAX_VERSION && |digest| == DIGEST_SIZE && 0 < |image| <= U32_MAX
    ensures var p := Plan(infos, version, digest, Pieces(image));
      && p.Valid() && p.Image() == image && WordSized(p) && p.Last() == infos + 2 + PieceCount(|image|)
      && forall j :: 0 <= j < |p.chunks| ==>
        PayloadAt(p, infos + 2 + j) == Le32(Min(j * MAX_DATA, |image|)) + p.chunks[j]
  {
    hide Pieces, PieceCount, PayloadAt, WordSized;
    PiecesExact(image);
    var p := Plan(infos, version, digest, Pieces(image));
    FullPiecesAreWords(p, image);
    forall j | 0 <= j < |p.chunks|
      ensures PayloadAt(p, infos + 2 + j) == Le32(Min(j * MAX_DATA, |image|)) + p.chunks[j]
    {
      PiecePayload(p, image, j);
    }
  }

  /** Such an update completes in exactly that many exchanges on a conforming device without losses. */
  lemma FullReadUpdateCompletes(g: Goal, s: System, image: seq<byte>)
    requires g.Valid() && g.plan.chunks == Pieces(image) && ConformingDevice(g)
    requires Initial(g, s) && WellFormed(g, s) && !s.mode.Gone?
    ensures g.plan.Image() == image
    ensures var r := Execution(g, s, Rounds(g.plan.infos + 3 + PieceCount(|image|)));
      r.host == Done && Committed(g, r.mode.Flash())
  {
    hide Execution, Initial, WellFormed, ConformingDevice, WordSized, Pieces, PieceCount, Committed, Rounds;
    PiecesExact(image);
    FullPiecesAreWords(g.plan, image);
    CleanUpdateCompletes(g, s);
  }
}
