/**
 The frida-server download (src/beetroot/frida_download.py): a compressed body is
 fed chunk by chunk to an incremental decompressor, whose output goes to a temp
 file under a ceiling and is published by a rename only when the stream has ended.
 The codec is any lawful function of the bytes fed so far; the decompressor is any
 behaviour its `eof` / `needs_input` / `max_length` protocol allows.
 */
module FridaDownload {
  import opened Prelude

  type Byte = x: int | 0 <= x < 256

  type Bytes = seq<Byte>

  const CHUNK_SIZE: nat := 65536
  const MAX_DECOMPRESSED_BYTES: nat := 512 * 1024 * 1024

  // ---- The codec --------------------------------------------------------------------

  datatype Status = Running | Ended | Broken

  /** What the bytes so far decompress to, and whether the end marker or a defect was met. */
  datatype Decoded = Decoded(out: Bytes, status: Status)

  /** More input only extends the output; an ended or broken stream stays as it is. */
  ghost predicate Lawful(decode: Bytes -> Decoded) {
    && decode([]) == Decoded([], Running)
    && forall a, b :: && decode(a).out <= decode(a + b).out
                      && (decode(a).status != Running ==> decode(a + b) == decode(a))
  }

  function Concat(chunks: seq<Bytes>): Bytes {
    if chunks == [] then [] else Concat(chunks[..|chunks| - 1]) + chunks[|chunks| - 1]
  }

  lemma {:induction false} ConcatSplits(chunks: seq<Bytes>, k: nat)
    requires k <= |chunks|
    ensures Concat(chunks) == Concat(chunks[..k]) + Concat(chunks[k..])
  {
    if k == |chunks| {
      assert chunks[..k] == chunks;
    } else {
      var last := |chunks| - 1;
      ConcatSplits(chunks[..last], k);
      assert chunks[..last][..k] == chunks[..k] && chunks[..last][k..] == chunks[k..][..last - k];
    }
  }

  /** What has been decoded after k chunks is a prefix of what the whole body decodes to. */
  lemma DecodedSoFar(decode: Bytes -> Decoded, chunks: seq<Bytes>, k: nat)
    requires Lawful(decode) && k <= |chunks|
    ensures decode(Concat(chunks[..k])).out <= decode(Concat(chunks)).out
    ensures decode(Concat(chunks[..k])).status != Running ==> decode(Concat(chunks)) == decode(Concat(chunks[..k]))
  {
    ConcatSplits(chunks, k);
  }

  lemma ConcatStep(chunks: seq<Bytes>, k: nat)
    requires k < |chunks|
    ensures Concat(chunks[..k + 1]) == Concat(chunks[..k]) + chunks[k]
  {
    assert chunks[..k + 1][..k] == chunks[..k];
  }

  lemma Extends(decode: Bytes -> Decoded, a: Bytes, b: Bytes)
    requires Lawful(decode)
    ensures decode(a).out <= decode(a + b).out
  {
  }

  /** What the server and the disk do: whether the response opens, the chunks read returns before it
      ends or (`drops`) raises, the bytes the disk has room for, and whether the rename goes through. */
  datatype World = World(opens: bool, chunks: seq<Bytes>, drops: bool, room: nat, renames: bool)

  datatype Failure = Unreachable | Truncated | OverCeiling | Corrupt | DiskFull | NotPublished | Mismatch

  class Decompressor {
    const decode: Bytes -> Decoded
    var fed: Bytes
    var emitted: nat
    var eof: bool
    var needsInput: bool

    ghost predicate Valid()
      reads this
    {
      && Lawful(decode)
      && emitted <= |decode(fed).out|
      && (eof ==> decode(fed).status == Ended && emitted == |decode(fed).out|)
      && (needsInput && !eof ==> decode(fed).status == Running && emitted == |decode(fed).out|)
    }

    constructor (decode: Bytes -> Decoded)
      requires Lawful(decode)
      ensures Valid() && this.decode == decode && fed == [] && emitted == 0 && !eof && needsInput
    {
      this.decode := decode;
      fed, emitted, eof, needsInput := [], 0, false, true;
    }

    /** One call: at most `max` new bytes; a call that yields nothing and is not at the end asks for input. */
    method Decompress(data: Bytes, max: nat) returns (piece: Option<Bytes>)
      requires Valid() && !eof && max > 0 && (needsInput <==> data != [])
      modifies this
      ensures Valid() && fed == old(fed) + data
      ensures piece.None? ==> decode(fed).status == Broken
      ensures piece.Some? ==> && |piece.value| <= max && emitted == old(emitted) + |piece.value|
                              && piece.value == decode(fed).out[old(emitted)..emitted]
                              && (piece.value == [] ==> eof || needsInput)
    {
      var s := decode(fed + data);
      Extends(decode, fed, data);
      fed := fed + data;
      assert emitted <= |s.out|;
      var available := |s.out| - emitted;
      var defectNoticed: bool := *;
      if s.status == Broken && (defectNoticed || available == 0) {
        needsInput := false;
        return None;
      }
      var n: int := *;
      if !(0 < n <= available && n <= max) { n := if available <= max then available else max; }
      piece := Some(s.out[emitted..emitted + n]);
      emitted := emitted + n;
      var flagged: bool := *;
      var drained := emitted == |s.out| && (flagged || n == 0);
      eof := s.status == Ended && drained;
      needsInput := s.status == Running && drained;
    }

    /** One turn of the loop: read when input is wanted, then decompress. */
    method Round(w: World, k: nat) returns (r: Result<Bytes, Failure>, next: nat)
      requires Valid() && !eof && forall c | c in w.chunks :: c != []
      requires k <= |w.chunks| && fed == Concat(w.chunks[..k])
      modifies this
      ensures Valid() && k <= next <= |w.chunks| && fed == Concat(w.chunks[..next])
      ensures r.Err? ==> r.error != Mismatch && decode(Concat(w.chunks)).status != Ended
      ensures r.Ok? ==> emitted == old(emitted) + |r.value|
      ensures r.Ok? ==> decode(fed).out[..emitted] == old(decode(fed).out[..emitted]) + r.value
      ensures r.Ok? ==> next > k || r.value != [] || eof || (needsInput && !old(needsInput))
    {
      hide Lawful, Concat;
      var toFeed: Bytes := [];
      next := k;
      if needsInput {
        if k == |w.chunks| {
          assert w.chunks[..k] == w.chunks;
          return Err(if w.drops then Unreachable else Truncated), k;
        }
        toFeed := w.chunks[k];
        assert toFeed in w.chunks;
        ConcatStep(w.chunks, k);
        next := k + 1;
      }
      Extends(decode, fed, toFeed);
      var piece := Decompress(toFeed, CHUNK_SIZE);
      assert fed == Concat(w.chunks[..next]);
      DecodedSoFar(decode, w.chunks, next);
      return if piece.None? then Err(Corrupt) else Ok(piece.value), next;
    }
  }

  // ---- The download -------------------------------------------------------------------

  function LowerChar(c: char): char { if 'A' <= c <= 'Z' then (c as int + 32) as char else c }

  function Lower(s: string): string { seq(|s|, i requires 0 <= i < |s| => LowerChar(s[i])) }

  predicate Matches(digest: string, expected: Option<string>) {
    expected.None? || Lower(digest) == Lower(expected.value)
  }

  /** The same letter, but for the case of an ASCII one. */
  predicate SameLetter(a: char, b: char) {
    || a == b
    || ('A' <= a <= 'Z' && b as int - 'a' as int == a as int - 'A' as int)
    || ('A' <= b <= 'Z' && a as int - 'a' as int == b as int - 'A' as int)
  }

  /** A pinned digest is met exactly by a text of its length that agrees letter by letter. */
  lemma MatchesExactly(digest: string, pinned: string)
    ensures Matches(digest, Some(pinned)) <==>
              |digest| == |pinned| && forall k | 0 <= k < |pinned| :: SameLetter(digest[k], pinned[k])
    ensures Matches(digest, None)
  {
    if Matches(digest, Some(pinned)) {
      assert |Lower(digest)| == |Lower(pinned)|;
      forall k | 0 <= k < |pinned| ensures SameLetter(digest[k], pinned[k]) {
        assert Lower(digest)[k] == Lower(pinned)[k];
      }
    }
  }

  /** The whole stream arrives, ends, and fits. */
  predicate Complete(decode: Bytes -> Decoded, w: World) {
    var all := decode(Concat(w.chunks));
    w.opens && all.status == Ended && |all.out| <= MAX_DECOMPRESSED_BYTES && |all.out| <= w.room && w.renames
  }

  class Cache {
    var entry: Option<Bytes>
    var temp: Option<Bytes>

    /** The streaming loop, into the temp file. */
    method Stream(decode: Bytes -> Decoded, w: World) returns (failure: Option<Failure>)
      requires Lawful(decode) && forall c | c in w.chunks :: c != []
      modifies this`temp
      ensures failure != Some(Mismatch)
      ensures failure.None? <==> Complete(decode, w.(opens := true, renames := true))
      ensures failure.None? ==> temp == Some(decode(Concat(w.chunks)).out)
      ensures temp.Some? && |temp.value| <= MAX_DECOMPRESSED_BYTES && |temp.value| <= w.room
    {
      assert w.chunks[..0] == [];
      assert Concat(w.chunks[..0]) == [];
      hide Lawful, Concat;
      var d := new Decompressor(decode);
      var total, k := 0, 0;
      temp := Some([]);
      while !d.eof
        invariant d.Valid() && d.decode == decode && fresh(d)
        invariant k <= |w.chunks| && d.fed == Concat(w.chunks[..k])
        invariant total == d.emitted <= MAX_DECOMPRESSED_BYTES && total <= w.room
        invariant temp == Some(decode(d.fed).out[..total])
        decreases |w.chunks| - k, MAX_DECOMPRESSED_BYTES - total, if d.needsInput || d.eof then 0 else 1
      {
        var r, next := d.Round(w, k);
        k := next;
        if r.Err? { return Some(r.error); }
        DecodedSoFar(decode, w.chunks, k);
        total := total + |r.value|;
        if total > MAX_DECOMPRESSED_BYTES { return Some(OverCeiling); }
        if total > w.room { return Some(DiskFull); }
        temp := Some(temp.value + r.value);
      }
      DecodedSoFar(decode, w.chunks, k);
      assert temp.value == decode(d.fed).out;
      return None;
    }

    method CheckSha256(digest: Bytes -> string, expected: Option<string>) returns (ok: bool)
      requires entry.Some?
      modifies this`entry
      ensures ok <==> Matches(digest(old(entry).value), expected)
      ensures entry == if ok then old(entry) else None
    {
      if expected.None? { return true; }
      ok := Lower(digest(entry.value)) == Lower(expected.value);
      if !ok { entry := None; }
    }

    /** For every chunking and every decompressor behaviour: what is published is the complete
        decompression, a failed fetch leaves the entry as it was, and no temp file survives. */
    method Download(decode: Bytes -> Decoded, w: World, digest: Bytes -> string, expected: Option<string>)
      returns (r: Result<Bytes, Failure>)
      requires Lawful(decode) && forall c | c in w.chunks :: c != []
      requires temp == None
      modifies this
      ensures temp == None
      ensures r.Ok? ==> entry == Some(r.value) && Matches(digest(r.value), expected)
      ensures old(entry).Some? && old(entry).value != [] ==>
                r == if Matches(digest(old(entry).value), expected) then Ok(old(entry).value) else Err(Mismatch)
      ensures old(entry).None? || old(entry).value == [] ==>
                && var all := decode(Concat(w.chunks));
                && (r.Ok? || r == Err(Mismatch) <==>
                      && w.opens && w.renames && all.status == Ended && |all.out| <= 536870912 && |all.out| <= w.room)
                && (r.Ok? ==> r.value == all.out)
                && (r == Err(Mismatch) ==> !Matches(digest(decode(Concat(w.chunks)).out), expected))
      ensures r.Err? ==> entry == if r.error == Mismatch then None else old(entry)
    {
      if entry.Some? && entry.value != [] {
        var hit := entry.value;
        var ok := CheckSha256(digest, expected);
        return if ok then Ok(hit) else Err(Mismatch);
      }
      if !w.opens { return Err(Unreachable); }
      var failure := Stream(decode, w);
      if failure.Some? {
        temp := None;
        return Err(failure.value);
      }
      if !w.renames {
        temp := None;
        return Err(NotPublished);
      }
      entry, temp := temp, None;
      var fetched := entry.value;
      var fine := CheckSha256(digest, expected);
      return if fine then Ok(fetched) else Err(Mismatch);
    }
  }
}
