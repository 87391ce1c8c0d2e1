/** The zip archive of an export case (frigate/api/export.py): unique member names, and a buffer the zip
    writer fills while the response is being streamed from its other end. */
module ExportArchive {
  import opened Common

  type Bytes = seq<byte>

  // ---------------------------------------------------------------- member names

  /** An export, its date as whole seconds. */
  datatype Export = Export(name: string, camera: string, date: nat)

  function DigitChar(d: nat): char
    requires d < 10
  {
    '0' + d as char
  }

  /** A number in decimal. */
  function Decimal(n: nat): (s: string)
    ensures s != []
  {
    if n < 10 then [DigitChar(n)] else Decimal(n / 10) + [DigitChar(n % 10)]
  }

  /** The sanitized name, or camera and date when there is none. */
  function BaseName(export_: Export, sanitize: string -> string): string {
    var base := if export_.name != "" then sanitize(export_.name) else "";
    if base == "" then export_.camera + "_" + Decimal(export_.date) else base
  }

  /** The names tried in turn: the base name, then the base name with a counter. */
  function Candidate(base: string, k: nat): string {
    if k == 0 then base + ".mp4" else base + "_" + Decimal(k) + ".mp4"
  }

  lemma {:induction false} DecimalInjective(a: nat, b: nat)
    requires Decimal(a) == Decimal(b)
    ensures a == b
  {
    var s, t := Decimal(a), Decimal(b);
    assert s[|s| - 1] == DigitChar(a % 10) && t[|t| - 1] == DigitChar(b % 10);
    assert a % 10 == b % 10;
    if a >= 10 && b >= 10 {
      assert s[..|s| - 1] == Decimal(a / 10) && t[..|t| - 1] == Decimal(b / 10);
      DecimalInjective(a / 10, b / 10);
    }
  }

  lemma CandidateInjective(base: string, a: nat, b: nat)
    requires Candidate(base, a) == Candidate(base, b)
    ensures a == b
  {
    if a > 0 && b > 0 {
      var s, n := Candidate(base, a), |base| + 1;
      assert s[n..|s| - 4] == Decimal(a);
      assert s[n..|s| - 4] == Decimal(b);
      DecimalInjective(a, b);
    }
  }

  /** The number that a text shows in decimal. */
  function Reading(s: string): nat {
    if s == "" then 0
    else
      var d := s[|s| - 1];
      10 * Reading(s[..|s| - 1]) + if '0' <= d <= '9' then (d - '0') as nat else 0
  }

  lemma {:induction false} DecimalReads(n: nat)
    ensures Reading(Decimal(n)) == n
    ensures forall c :: c in Decimal(n) ==> '0' <= c <= '9'
  {
    var s := Decimal(n);
    if n >= 10 {
      DecimalReads(n / 10);
      assert s[..|s| - 1] == Decimal(n / 10);
    } else {
      assert s[..0] == "";
    }
  }

  /** A member is named after its export: by its sanitized name, or, if that leaves nothing, by its camera and
      the second of its date; with a counter only when the plain name is in use; and as an mp4 file. */
  lemma {:induction false} NamedAfterExport(name: string, e: Export, used: set<string>, sanitize: string -> string)
    requires IsFirstUnused(name, BaseName(e, sanitize), used)
    ensures var titled := e.name != "" && sanitize(e.name) != "";
            var base := if titled then sanitize(e.name) else e.camera + "_" + Decimal(e.date);
            if base + ".mp4" in used then exists n :: 0 < n <= |used| && name == base + ("_" + Decimal(n) + ".mp4")
            else name == base + ".mp4"
  {
    var base := BaseName(e, sanitize);
    var k: nat :| k <= |used| && name == Candidate(base, k) && name !in used
                  && forall j :: 0 <= j < k ==> Candidate(base, j) in used;
    assert Candidate(base, 0) == base + ".mp4";
    if k > 0 { assert Candidate(base, k) == base + ("_" + Decimal(k) + ".mp4"); }
  }

  /** If the first `n` candidates are all taken, at least `n` names are: the candidates are pairwise
      different. */
  lemma {:induction false} Pigeonhole(base: string, n: nat, used: set<string>)
    requires forall j :: 0 <= j < n ==> Candidate(base, j) in used
    ensures n <= |used|
  {
    if n > 0 {
      var last := Candidate(base, n - 1);
      forall j | 0 <= j < n - 1 ensures Candidate(base, j) in used - {last} {
        if Candidate(base, j) == last { CandidateInjective(base, j, n - 1); }
      }
      Pigeonhole(base, n - 1, used - {last});
    }
  }

  /** `name` is the first candidate not in use, and it comes among the first |used| + 1. */
  ghost predicate IsFirstUnused(name: string, base: string, used: set<string>) {
    exists k: nat :: && k <= |used| && name == Candidate(base, k) && name !in used
                     && forall j :: 0 <= j < k ==> Candidate(base, j) in used
  }

  /** The name allocator: terminates because candidates never repeat. */
  method UniqueArchiveName(export_: Export, used: set<string>, sanitize: string -> string)
    returns (candidate: string, used': set<string>)
    ensures IsFirstUnused(candidate, BaseName(export_, sanitize), used)
    ensures used' == used + {candidate}
  {
    var base := BaseName(export_, sanitize);
    candidate := base + ".mp4";
    var counter := 1;
    while candidate in used
      invariant 1 <= counter <= |used| + 1
      invariant candidate == Candidate(base, counter - 1)
      invariant forall j :: 0 <= j < counter - 1 ==> Candidate(base, j) in used
      decreases |used| + 1 - counter
    {
      Pigeonhole(base, counter, used);
      candidate := base + "_" + Decimal(counter) + ".mp4";
      counter := counter + 1;
    }
    used' := used + {candidate};
  }

  /** The allocated name is determined: there is only one first unused candidate. */
  lemma {:induction false} FirstUnusedIsUnique(a: string, b: string, base: string, used: set<string>)
    requires IsFirstUnused(a, base, used) && IsFirstUnused(b, base, used)
    ensures a == b
  {
    var i: nat :| i <= |used| && a == Candidate(base, i) && a !in used
                  && forall j :: 0 <= j < i ==> Candidate(base, j) in used;
    var k: nat :| k <= |used| && b == Candidate(base, k) && b !in used
                  && forall j :: 0 <= j < k ==> Candidate(base, j) in used;
    assert !(i < k) && !(k < i);
  }

  // ---------------------------------------------------------------- the buffer

  /** The writes that carry any bytes. */
  function NonEmpty(parts: seq<Bytes>): seq<Bytes> {
    if parts == [] then []
    else NonEmpty(parts[..|parts| - 1]) + if parts[|parts| - 1] == [] then [] else [parts[|parts| - 1]]
  }

  lemma {:induction false} NonEmptyConcat(a: seq<Bytes>, b: seq<Bytes>)
    ensures NonEmpty(a + b) == NonEmpty(a) + NonEmpty(b)
  {
    if b == [] {
      assert a + b == a;
    } else {
      NonEmptyConcat(a, b[..|b| - 1]);
      assert (a + b)[..|a + b| - 1] == a + b[..|b| - 1];
    }
  }

  /** Leaving out empty writes loses no byte. */
  lemma {:induction false} NonEmptyBytes(parts: seq<Bytes>)
    ensures Join(NonEmpty(parts)) == Join(parts)
    ensures forall p :: p in NonEmpty(parts) ==> p != []
  {
    if parts != [] {
      var init, last := parts[..|parts| - 1], parts[|parts| - 1];
      NonEmptyBytes(init);
      if last == [] {
        assert Join(init) + last == Join(init);
        assert NonEmpty(parts) == NonEmpty(init);
      } else {
        assert (NonEmpty(init) + [last])[..|NonEmpty(init)|] == NonEmpty(init);
      }
    }
  }

  class StreamingZipBuffer {
    var queue: seq<Bytes>
    var offset: nat
    ghost var written: seq<Bytes>  // the non-empty writes so far
    ghost var drained: seq<Bytes>  // those handed out so far

    /** At every point what was handed out followed by what is queued is what was written, and the offset is
        the number of bytes written. */
    ghost predicate Valid()
      reads this
    {
      drained + queue == written && offset == |Join(written)|
    }

    constructor ()
      ensures Valid() && written == drained == []
    {
      queue, offset, written, drained := [], 0, [], [];
    }

    method Write(data: Bytes) returns (n: nat)
      requires Valid()
      modifies this
      ensures Valid() && n == |data| && drained == old(drained)
      ensures written == old(written) + if data == [] then [] else [data]
    {
      if data != [] {
        queue := queue + [data];
        offset := offset + |data|;
        assert (written + [data])[..|written|] == written;
        written := written + [data];
      }
      n := |data|;
    }

    method Tell() returns (n: nat)
      requires Valid()
      ensures n == |Join(written)|
    {
      n := offset;
    }

    /** Hands out the queued pieces from the front, leaving the queue empty. */
    method Drain() returns (pieces: seq<Bytes>)
      requires Valid()
      modifies this`queue, this`drained
      ensures Valid() && queue == []
      ensures drained == written == old(drained) + pieces
    {
      pieces := [];
      while queue != []
        invariant Valid()
        invariant drained == old(drained) + pieces
        decreases |queue|
      {
        pieces, drained := pieces + [queue[0]], drained + [queue[0]];
        queue := queue[1..];
      }
    }

    method WriteAll(parts: seq<Bytes>)
      requires Valid()
      modifies this
      ensures Valid() && drained == old(drained)
      ensures written == old(written) + NonEmpty(parts)
    {
      for i := 0 to |parts|
        invariant Valid() && drained == old(drained)
        invariant written == old(written) + NonEmpty(parts[..i])
      {
        var _ := Write(parts[i]);
        assert parts[..i + 1][..i] == parts[..i];
      }
      assert parts[..|parts|] == parts;
    }
  }

  // ---------------------------------------------------------------- the stream

  /** An export and what the zip library writes for it, piece by piece: when its member is opened, for every
      chunk read from the video, and when the member is closed. */
  datatype Member = Member(export_: Export, present: bool,
                           opening: seq<Bytes>, chunks: seq<seq<Bytes>>, closing: seq<Bytes>)
  {
    /** What has been written, after `before`, once the first `n` chunks have been. */
    function UpToChunk(before: seq<Bytes>, n: nat): seq<Bytes>
      requires n <= |chunks|
    {
      if n == 0 then before + opening else UpToChunk(before, n - 1) + chunks[n - 1]
    }

    function Appended(before: seq<Bytes>): seq<Bytes> {
      if present then UpToChunk(before, |chunks|) + closing else before
    }
  }

  /** Everything the archive writes for the first `n` members, in order. */
  function AllPieces(members: seq<Member>, n: nat): seq<Bytes>
    requires n <= |members|
  {
    if n == 0 then [] else members[n - 1].Appended(AllPieces(members, n - 1))
  }

  /** What the archive writes for a member: when it is opened, then chunk by chunk, then when it is closed; and
      nothing if its video is gone. */
  function PiecesOf(m: Member): seq<Bytes> {
    if m.present then m.opening + Join(m.chunks) + m.closing else []
  }

  lemma {:induction false} ChunksInOrder(m: Member, before: seq<Bytes>, n: nat)
    requires n <= |m.chunks|
    ensures m.UpToChunk(before, n) == before + (m.opening + Join(m.chunks[..n]))
  {
    if n == 0 {
      assert m.opening + Join(m.chunks[..0]) == m.opening;
    } else {
      ChunksInOrder(m, before, n - 1);
      assert m.chunks[..n][..n - 1] == m.chunks[..n - 1];
      Regroup(m.opening, Join(m.chunks[..n - 1]), m.chunks[n - 1]);
      Regroup(before, m.opening + Join(m.chunks[..n - 1]), m.chunks[n - 1]);
    }
  }

  lemma {:induction false} AppendedInOrder(m: Member, before: seq<Bytes>)
    ensures m.Appended(before) == before + PiecesOf(m)
  {
    if m.present {
      ChunksInOrder(m, before, |m.chunks|);
      assert m.chunks[..|m.chunks|] == m.chunks;
      Regroup(before, m.opening + Join(m.chunks), m.closing);
    }
  }

  /** The archive writes its members one after another: up to member `k` what it writes for those before, then all
      pieces of that member in order, and after it only what it writes for later ones. */
  lemma {:induction false} MembersInOrder(members: seq<Member>, k: nat, n: nat)
    requires k < n <= |members|
    ensures AllPieces(members, 0) == []
    ensures AllPieces(members, k + 1) == AllPieces(members, k) + PiecesOf(members[k])
    ensures AllPieces(members, k) + PiecesOf(members[k]) <= AllPieces(members, n)
  {
    AppendedInOrder(members[k], AllPieces(members, k));
    if k + 1 < n {
      MembersInOrder(members, k, n - 1);
      AppendedInOrder(members[n - 1], AllPieces(members, n - 1));
    }
  }

  /** The exports among the first `n` members whose video exists, in order. */
  function Present(members: seq<Member>, n: nat): seq<Export>
    requires n <= |members|
  {
    if n == 0 then []
    else Present(members, n - 1) + if members[n - 1].present then [members[n - 1].export_] else []
  }

  /** They are all there, in order. */
  lemma {:induction false} PresentInOrder(members: seq<Member>, k: nat, n: nat)
    requires k < n <= |members|
    ensures Present(members, k) <= Present(members, n)
    ensures members[k].present ==> Present(members, k) + [members[k].export_] <= Present(members, n)
  {
    if k + 1 < n {
      PresentInOrder(members, k, n - 1);
    }
  }

  /** And nothing else. */
  lemma {:induction false} PresentOneForOne(members: seq<Member>, n: nat)
    requires n <= |members|
    ensures |Present(members, n)| == |Positions(members, n)|
  {
    if n == 0 {
      assert Positions(members, 0) == {};
    } else {
      PresentOneForOne(members, n - 1);
      assert Positions(members, n) == Positions(members, n - 1) + if members[n - 1].present then {n - 1} else {};
    }
  }

  /** Which of the first `n` members have a video. */
  function Positions(members: seq<Member>, n: nat): set<nat>
    requires n <= |members|
  {
    set k: nat | k < n && members[k].present
  }

  /** Lets the library write some pieces and drains the buffer: all that was queued comes out, in order. */
  method WriteAndDrain(buffer: StreamingZipBuffer, parts: seq<Bytes>, ghost before: seq<Bytes>, sofar: seq<Bytes>)
    returns (yielded: seq<Bytes>)
    requires buffer.Valid() && buffer.written == NonEmpty(before) && buffer.drained == sofar
    modifies buffer
    ensures buffer.Valid()
    ensures buffer.written == buffer.drained == yielded == NonEmpty(before + parts)
  {
    buffer.WriteAll(parts);
    NonEmptyConcat(before, parts);
    var out := buffer.Drain();
    yielded := sofar + out;
  }

  /** Streams one member: its pieces go through the buffer and come out in order.  `before` are the pieces of
      the members streamed so far, and `sofar` is what has been yielded. */
  method StreamMember(buffer: StreamingZipBuffer, m: Member, ghost before: seq<Bytes>, sofar: seq<Bytes>)
    returns (yielded: seq<Bytes>)
    requires buffer.Valid() && m.present
    requires buffer.written == NonEmpty(before) && buffer.drained == sofar
    modifies buffer
    ensures buffer.Valid()
    ensures buffer.written == buffer.drained == yielded == NonEmpty(m.Appended(before))
  {
    yielded := sofar;
    buffer.WriteAll(m.opening);
    NonEmptyConcat(before, m.opening);
    for i := 0 to |m.chunks|
      invariant buffer.Valid() && buffer.drained == yielded
      invariant buffer.written == NonEmpty(m.UpToChunk(before, i))
    {
      yielded := WriteAndDrain(buffer, m.chunks[i], m.UpToChunk(before, i), yielded);
    }
    yielded := WriteAndDrain(buffer, m.closing, m.UpToChunk(before, |m.chunks|), yielded);
  }

  /** Every name is the first candidate of its export not among the names before it. */
  ghost predicate NamesFor(names: seq<string>, exports: seq<Export>, sanitize: string -> string) {
    && |names| == |exports|
    && (names == [] ||
        (&& NamesFor(names[..|names| - 1], exports[..|names| - 1], sanitize)
         && IsFirstUnused(names[|names| - 1], BaseName(exports[|names| - 1], sanitize), NameSet(names[..|names| - 1]))))
  }

  lemma {:induction false} NamesSnoc(names: seq<string>, exports: seq<Export>, sanitize: string -> string,
                                     name: string, e: Export)
    requires NamesFor(names, exports, sanitize)
    requires IsFirstUnused(name, BaseName(e, sanitize), NameSet(names))
    ensures NamesFor(names + [name], exports + [e], sanitize)
    ensures NameSet(names + [name]) == NameSet(names) + {name}
  {
    assert (names + [name])[..|names|] == names && (exports + [e])[..|names|] == exports;
  }

  /** All names in one archive are pairwise different. */
  lemma {:induction false} ArchiveNamesDistinct(names: seq<string>, exports: seq<Export>, sanitize: string -> string)
    requires NamesFor(names, exports, sanitize)
    ensures Distinct(names)
  {
    if names != [] {
      var init, last := names[..|names| - 1], names[|names| - 1];
      ArchiveNamesDistinct(init, exports[..|names| - 1], sanitize);
      assert last !in NameSet(init);
      assert forall i :: 0 <= i < |init| ==> init[i] == names[i] && init[i] in NameSet(init);
    }
  }

  /** The first `n` members have been streamed: the buffer is empty, all they write has been yielded, and each
      one present has its name. */
  ghost predicate Streamed(buffer: StreamingZipBuffer, members: seq<Member>, n: nat, used: set<string>,
                           names: seq<string>, yielded: seq<Bytes>, sanitize: string -> string)
    requires n <= |members|
    reads buffer
  {
    && buffer.Valid()
    && buffer.written == buffer.drained == yielded == NonEmpty(AllPieces(members, n))
    && used == NameSet(names) && NamesFor(names, Present(members, n), sanitize)
  }

  /** Streams the next member, or passes over it when its video is gone. */
  method StreamNext(buffer: StreamingZipBuffer, members: seq<Member>, n: nat, used: set<string>, names: seq<string>,
                    yielded: seq<Bytes>, sanitize: string -> string)
    returns (used': set<string>, names': seq<string>, yielded': seq<Bytes>)
    requires n < |members| && Streamed(buffer, members, n, used, names, yielded, sanitize)
    modifies buffer
    ensures Streamed(buffer, members, n + 1, used', names', yielded', sanitize)
  {
    if !members[n].present {
      assert Present(members, n + 1) == Present(members, n);
      return used, names, yielded;
    }
    var arcname;
    arcname, used' := UniqueArchiveName(members[n].export_, used, sanitize);
    NamesSnoc(names, Present(members, n), sanitize, arcname, members[n].export_);
    names' := names + [arcname];
    yielded' := StreamMember(buffer, members[n], AllPieces(members, n), yielded);
  }

  /** The generator behind the download.  What it yields is, byte for byte, everything the archive writes,
      including what is written when the archive is closed; no yielded piece is empty; and every member
      gets the first name not used before it, so that all names are different. */
  method StreamCaseArchive(members: seq<Member>, trailer: seq<Bytes>, sanitize: string -> string)
    returns (yielded: seq<Bytes>, names: seq<string>)
    ensures Join(yielded) == Join(AllPieces(members, |members|) + trailer)
    ensures forall p :: p in yielded ==> p != []
    ensures NamesFor(names, Present(members, |members|), sanitize) && Distinct(names)
  {
    var buffer := new StreamingZipBuffer();
    var used: set<string> := {};
    yielded, names := [], [];
    for i := 0 to |members|
      invariant fresh(buffer) && Streamed(buffer, members, i, used, names, yielded, sanitize)
    {
      used, names, yielded := StreamNext(buffer, members, i, used, names, yielded, sanitize);
    }
    yielded := WriteAndDrain(buffer, trailer, AllPieces(members, |members|), yielded);
    NonEmptyBytes(AllPieces(members, |members|) + trailer);
    ArchiveNamesDistinct(names, Present(members, |members|), sanitize);
  }

  function NameSet(names: seq<string>): set<string> { set n | n in names }
}
