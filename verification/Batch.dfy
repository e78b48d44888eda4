/** The batch container: a magic string, a version, a metadata flag, and records each
    prefixed with its length, written and read through calls that may move fewer bytes
    than asked for. */
module Batch {

  newtype byte = x: int | 0 <= x < 256

  type Bytes = seq<byte>

  const MAX_RECORD: nat := 64 * 1024 * 1024

  /** "FSTRESBATCH" */
  const MAGIC: Bytes := [70, 83, 84, 82, 69, 83, 66, 65, 84, 67, 72]

  const VERSION: byte := 1

  // ---- Lengths: eight bytes, least significant first ----

  function Encode(n: nat, k: nat): (s: Bytes)
    ensures |s| == k
  {
    if k == 0 then [] else [(n % 256) as byte] + Encode(n / 256, k - 1)
  }

  function Decode(s: Bytes): nat {
    if s == [] then 0 else s[0] as nat + 256 * Decode(s[1..])
  }

  function Power(k: nat): nat { if k == 0 then 1 else 256 * Power(k - 1) }

  lemma {:induction false} DecodeEncode(n: nat, k: nat)
    requires n < Power(k)
    ensures Decode(Encode(n, k)) == n
  {
    if k > 0 {
      assert n / 256 < Power(k - 1);
      DecodeEncode(n / 256, k - 1);
      assert Encode(n, k)[1..] == Encode(n / 256, k - 1);
    }
  }

  lemma {:induction false} EncodeDecode(s: Bytes)
    ensures Decode(s) < Power(|s|) && Encode(Decode(s), |s|) == s
  {
    if s != [] {
      EncodeDecode(s[1..]);
      assert Decode(s) % 256 == s[0] as nat && Decode(s) / 256 == Decode(s[1..]);
    }
  }

  lemma RecordLengthsFit()
    ensures MAX_RECORD < Power(8)
  {
    assert Power(2) == 65536 && Power(4) == 65536 * 65536;
    assert Power(6) == 65536 * Power(4) && Power(8) == 65536 * Power(6);
  }

  // ---- The format ----

  function Record(r: Bytes): Bytes { Encode(|r|, 8) + r }

  function Records(rs: seq<Bytes>): Bytes {
    if rs == [] then [] else Record(rs[0]) + Records(rs[1..])
  }

  function Header(metadata: bool): Bytes { MAGIC + [VERSION, if metadata then 1 else 0] }

  function Container(metadata: bool, rs: seq<Bytes>): Bytes { Header(metadata) + Records(rs) }

  datatype Parsed<+T> = Malformed | Parsed(value: T)

  predicate Fits(r: Bytes) { 0 < |r| <= MAX_RECORD }

  function ParseRecords(s: Bytes): Parsed<seq<Bytes>>
    decreases |s|
  {
    if s == [] then Parsed([])
    else if |s| < 8 then Malformed
    else
      var n := Decode(s[..8]);
      if n == 0 || n > MAX_RECORD || |s| < 8 + n then Malformed
      else
        match ParseRecords(s[8 + n..])
        case Malformed => Malformed
        case Parsed(rest) => Parsed([s[8..8 + n]] + rest)
  }

  datatype Content = Content(metadata: bool, records: seq<Bytes>)

  function ParseContainer(s: Bytes): Parsed<Content> {
    if |s| < 13 || s[..11] != MAGIC || s[11] != VERSION || s[12] > 1 then Malformed
    else
      match ParseRecords(s[13..])
      case Malformed => Malformed
      case Parsed(rs) => Parsed(Content(s[12] == 1, rs))
  }

  // ---- Exactly the written containers are read ----

  /** The parts of one record at the front of a string. */
  lemma RecordAtFront(r: Bytes, rest: Bytes)
    requires |r| <= MAX_RECORD
    ensures var s := Record(r) + rest;
            |s| == 8 + |r| + |rest| && Decode(s[..8]) == |r| && s[8..8 + |r|] == r && s[8 + |r|..] == rest
  {
    var s := Record(r) + rest;
    RecordLengthsFit();
    DecodeEncode(|r|, 8);
    assert s[..8] == Encode(|r|, 8) && s[8..8 + |r|] == r && s[8 + |r|..] == rest;
  }

  lemma {:induction false} RecordsParse(rs: seq<Bytes>)
    requires forall r <- rs :: Fits(r)
    ensures ParseRecords(Records(rs)) == Parsed(rs)
  {
    if rs != [] {
      assert rs[0] in rs;
      RecordAtFront(rs[0], Records(rs[1..]));
      RecordsParse(rs[1..]);
      assert [rs[0]] + rs[1..] == rs;
    }
  }

  lemma RecordOf(s: Bytes, n: nat)
    requires |s| >= 8 + n && n == Decode(s[..8])
    ensures s == Record(s[8..8 + n]) + s[8 + n..]
  {
    EncodeDecode(s[..8]);
    assert s == s[..8] + s[8..8 + n] + s[8 + n..];
  }

  lemma {:induction false} ParsedRecords(s: Bytes)
    requires ParseRecords(s).Parsed?
    ensures s == Records(ParseRecords(s).value)
    ensures forall r <- ParseRecords(s).value :: Fits(r)
    decreases |s|
  {
    if s != [] {
      var n := Decode(s[..8]);
      var rest := ParseRecords(s[8 + n..]).value;
      ParsedRecords(s[8 + n..]);
      RecordOf(s, n);
      FirstRecord(s[8..8 + n], rest);
    }
  }

  lemma FirstRecord(r: Bytes, rest: seq<Bytes>)
    requires Fits(r) && forall x <- rest :: Fits(x)
    ensures Records([r] + rest) == Record(r) + Records(rest) && forall x <- [r] + rest :: Fits(x)
  {
    assert ([r] + rest)[1..] == rest;
  }

  lemma HeaderIs(metadata: bool, rest: Bytes)
    ensures var s := Header(metadata) + rest;
            |s| == 13 + |rest| && s[..11] == MAGIC && s[11] == VERSION && s[12] == (if metadata then 1 else 0) && s[13..] == rest
  {
    var s := Header(metadata) + rest;
    assert s[..11] == MAGIC && s[13..] == rest;
  }

  lemma HeaderOf(s: Bytes)
    requires |s| >= 13 && s[..11] == MAGIC && s[11] == VERSION && s[12] <= 1
    ensures s == Header(s[12] == 1) + s[13..]
  {
    assert s == s[..11] + [s[11], s[12]] + s[13..];
  }

  lemma WrittenIsRead(c: Content)
    requires forall r <- c.records :: Fits(r)
    ensures ParseContainer(Container(c.metadata, c.records)) == Parsed(c)
  {
    HeaderIs(c.metadata, Records(c.records));
    RecordsParse(c.records);
  }

  lemma ReadWasWritten(s: Bytes)
    requires ParseContainer(s).Parsed?
    ensures var c := ParseContainer(s).value; s == Container(c.metadata, c.records) && forall r <- c.records :: Fits(r)
  {
    HeaderOf(s);
    ParsedRecords(s[13..]);
  }

  /** A byte string reads as some content if and only if it is the container written for
      it and every record is non-empty and within the cap. */
  lemma ReadsExactlyWritten(s: Bytes, c: Content)
    ensures ParseContainer(s) == Parsed(c) <==> s == Container(c.metadata, c.records) && forall r <- c.records :: Fits(r)
  {
    if ParseContainer(s) == Parsed(c) { ReadWasWritten(s); }
    if s == Container(c.metadata, c.records) && forall r <- c.records :: Fits(r) { WrittenIsRead(c); }
  }

  lemma {:induction false} RecordsPrefix(s: Bytes, rs: seq<Bytes>)
    requires ParseRecords(s).Parsed? && s <= Records(rs) && forall r <- rs :: Fits(r)
    ensures ParseRecords(s).value <= rs
    decreases |s|
  {
    if s != [] {
      assert rs != [] && rs[0] in rs;
      var r, all := rs[0], Records(rs);
      RecordAtFront(r, Records(rs[1..]));
      assert s[..8] == all[..8];
      assert s[8..8 + |r|] == all[8..8 + |r|] && s[8 + |r|..] <= all[8 + |r|..];
      RecordsPrefix(s[8 + |r|..], rs[1..]);
    }
  }

  /** A prefix of a container is accepted only where a record ends, and then reads as the
      records before that point. */
  lemma PrefixesEndAtRecords(s: Bytes, c: Content)
    requires s <= Container(c.metadata, c.records) && (forall r <- c.records :: Fits(r)) && ParseContainer(s).Parsed?
    ensures var read := ParseContainer(s).value;
            read.metadata == c.metadata && read.records <= c.records && s == Container(c.metadata, read.records)
  {
    var all := Container(c.metadata, c.records);
    ReadWasWritten(s);
    HeaderIs(c.metadata, Records(c.records));
    assert s[13..] <= all[13..] && s[12] == all[12];
    RecordsPrefix(s[13..], c.records);
  }

  // ---- Reading and writing in pieces ----

  /** A file being read: each call grants between one byte and all that is asked for and
      left, as the schedule says, unless it fails. An interrupted call is repeated, so it
      is not a call of its own. */
  class Input {
    const data: Bytes
    const grant: (nat, nat) -> nat
    const fails: (nat, nat) -> bool
    var pos: nat
    /** A read has failed. */
    var broken: bool

    constructor (data: Bytes, grant: (nat, nat) -> nat, fails: (nat, nat) -> bool)
      ensures this.data == data && pos == 0 && !broken
    {
      this.data, this.grant, this.fails, pos, broken := data, grant, fails, 0, false;
    }

    ghost function Rest(): Bytes
      requires pos <= |data|
      reads `pos
    {
      data[pos..]
    }

    /** read(2): nothing only at the end or by an error. */
    method Read(size: nat) returns (got: Bytes)
      requires pos <= |data| && size > 0 && !broken
      modifies `pos, `broken
      ensures pos <= |data| && old(Rest()) == got + Rest() && |got| <= size
      ensures got == [] <==> old(Rest()) == [] || broken
    {
      broken := fails(pos, size);
      var left := |data| - pos;
      if broken || left == 0 {
        return [];
      }
      var most := if size < left then size else left;
      var n := 1 + grant(pos, size) % most;
      got := data[pos..pos + n];
      assert data[pos..] == got + data[pos + n..];
      pos := pos + n;
    }

    /** read_exact: all the bytes, or a clean end before the first, or a failure. */
    method ReadExact(size: nat) returns (got: Bytes, ok: bool, eof: bool)
      requires pos <= |data| && size > 0 && !broken
      modifies `pos, `broken
      ensures pos <= |data| && (broken ==> !ok && !eof)
      ensures !broken ==> (ok <==> old(|Rest()|) == 0 || old(|Rest()|) >= size)
      ensures !broken ==> (eof <==> old(|Rest()|) == 0)
      ensures ok && !eof ==> got == old(Rest())[..size] && Rest() == old(Rest())[size..]
    {
      got := [];
      while |got| < size
        invariant pos <= |data| && |got| <= size && !broken
        invariant old(Rest()) == got + Rest()
        decreases size - |got|
      {
        var more := Read(size - |got|);
        if broken {
          return got, false, false;
        }
        if more == [] {
          return got, |got| == 0, |got| == 0;
        }
        assert old(Rest()) == (got + more) + Rest();
        got := got + more;
      }
      ok, eof := true, false;
    }

    /** The record loop of batch_read_apply. */
    method ReadRecords() returns (r: Parsed<seq<Bytes>>)
      requires pos <= |data| && !broken
      modifies `pos, `broken
      ensures r == if broken then Malformed else ParseRecords(old(Rest()))
    {
      var rs: seq<Bytes> := [];
      ghost var all := Rest();
      AheadNone(ParseRecords(all));
      while true
        invariant pos <= |data| && !broken
        invariant ParseRecords(all) == Ahead(rs, ParseRecords(Rest()))
        decreases |data| - pos
      {
        ghost var s := Rest();
        var prefix, ok, eof := ReadExact(8);
        if !ok {
          return Malformed;
        }
        if eof {
          assert s == [] && rs + [] == rs;
          return Parsed(rs);
        }
        var n := Decode(prefix);
        if n == 0 || n > MAX_RECORD {
          return Malformed;
        }
        assert Rest() == s[8..];
        var record;
        record, ok, eof := ReadExact(n);
        if !ok || eof {
          return Malformed;
        }
        assert record == s[8..8 + n] && Rest() == s[8 + n..];
        AheadOne(rs, s, n);
        rs := rs + [record];
      }
    }

    /** batch_read_apply, framing only: whatever the schedule, the file's content, unless a
        read fails. */
    method ReadContainer() returns (r: Parsed<Content>)
      requires pos <= |data| && !broken
      modifies `pos, `broken
      ensures r == if broken then Malformed else ParseContainer(old(Rest()))
    {
      ghost var s := Rest();
      var magic, ok, eof := ReadExact(11);
      if !ok || eof || magic != MAGIC {
        return Malformed;
      }
      assert Rest() == s[11..];
      var version;
      version, ok, eof := ReadExact(1);
      if !ok || eof || version[0] != VERSION {
        return Malformed;
      }
      assert version[0] == s[11] && Rest() == s[12..];
      var mode;
      mode, ok, eof := ReadExact(1);
      if !ok || eof || mode[0] > 1 {
        return Malformed;
      }
      assert mode[0] == s[12] && Rest() == s[13..];
      var rs := ReadRecords();
      r := if rs.Malformed? then Malformed else Parsed(Content(mode[0] == 1, rs.value));
    }
  }

  function Ahead(rs: seq<Bytes>, rest: Parsed<seq<Bytes>>): Parsed<seq<Bytes>> {
    if rest.Malformed? then Malformed else Parsed(rs + rest.value)
  }

  lemma AheadNone(rest: Parsed<seq<Bytes>>)
    ensures Ahead([], rest) == rest
  {
    if rest.Parsed? { assert [] + rest.value == rest.value; }
  }

  /** A record taken from the front moves over to those read. */
  lemma AheadOne(rs: seq<Bytes>, s: Bytes, n: nat)
    requires |s| >= 8 + n && n == Decode(s[..8]) && 0 < n <= MAX_RECORD
    ensures Ahead(rs, ParseRecords(s)) == Ahead(rs + [s[8..8 + n]], ParseRecords(s[8 + n..]))
  {
    var rest := ParseRecords(s[8 + n..]);
    if rest.Parsed? { assert rs + ([s[8..8 + n]] + rest.value) == rs + [s[8..8 + n]] + rest.value; }
  }

  /** No write fails. */
  ghost predicate Reliable(fails: nat -> bool) { forall at: nat :: !fails(at) }

  /** write_all_bytes: a call at a place in the file moves at least one byte, or fails. */
  method WriteAll(out: Bytes, bytes: Bytes, grant: nat -> nat, fails: nat -> bool) returns (more: Bytes, ok: bool)
    ensures out <= more <= out + bytes && (ok <==> more == out + bytes)
    ensures Reliable(fails) ==> ok
  {
    var written := 0;
    more := out;
    while written < |bytes|
      invariant 0 <= written <= |bytes| && more == out + bytes[..written]
    {
      if fails(|more|) {
        return more, false;
      }
      var n := 1 + grant(written) % (|bytes| - written);
      assert bytes[..written] + bytes[written..written + n] == bytes[..written + n];
      more := more + bytes[written..written + n];
      written := written + n;
    }
    ok := true;
  }

  lemma {:induction false} RecordsSnoc(rs: seq<Bytes>, r: Bytes)
    ensures Records(rs + [r]) == Records(rs) + Record(r)
  {
    if rs == [] {
      assert ([] + [r])[1..] == [];
    } else {
      assert (rs + [r])[1..] == rs[1..] + [r];
      RecordsSnoc(rs[1..], r);
    }
  }

  lemma {:induction false} EarlierRecords(rs: seq<Bytes>, k: nat)
    requires k <= |rs|
    ensures Records(rs[..k]) <= Records(rs)
  {
    if k == |rs| {
      assert rs[..k] == rs;
    } else {
      var most := rs[..|rs| - 1];
      EarlierRecords(most, k);
      RecordsSnoc(most, rs[|rs| - 1]);
      assert most[..k] == rs[..k] && most + [rs[|rs| - 1]] == rs;
    }
  }

  lemma ContainerGrows(metadata: bool, rs: seq<Bytes>, k: nat)
    requires k < |rs|
    ensures Container(metadata, rs[..k]) + Record(rs[k]) == Container(metadata, rs[..k + 1])
    ensures Container(metadata, rs[..k + 1]) <= Container(metadata, rs)
  {
    RecordsSnoc(rs[..k], rs[k]);
    assert rs[..k + 1] == rs[..k] + [rs[k]];
    EarlierRecords(rs, k + 1);
  }

  /** batch_write_header */
  method WriteHeader(metadata: bool, grant: nat -> nat, fails: nat -> bool) returns (out: Bytes, ok: bool)
    ensures out <= Header(metadata) && (ok ==> out == Header(metadata))
    ensures Reliable(fails) ==> ok
  {
    out, ok := WriteAll([], MAGIC, grant, fails);
    if ok { out, ok := WriteAll(out, [VERSION], grant, fails); }
    if ok { out, ok := WriteAll(out, [if metadata then 1 else 0], grant, fails); }
  }

  /** batch_write_chunk, within the cap */
  method WriteRecord(out: Bytes, r: Bytes, grant: nat -> nat, fails: nat -> bool) returns (more: Bytes, ok: bool)
    ensures out <= more <= out + Record(r) && (ok ==> more == out + Record(r))
    ensures Reliable(fails) ==> ok
  {
    more, ok := WriteAll(out, Encode(|r|, 8), grant, fails);
    if ok { more, ok := WriteAll(more, r, grant, fails); }
  }

  /** The header and each record: refuses a record over the cap and leaves what precedes
      it, stops within the container where a write fails, and otherwise leaves exactly the
      container. */
  method WriteContainer(metadata: bool, records: seq<Bytes>, grant: nat -> nat, fails: nat -> bool)
    returns (out: Bytes, ok: bool)
    ensures ok ==> out == Container(metadata, records) && forall r <- records :: |r| <= MAX_RECORD
    ensures out <= Container(metadata, records)
    ensures Reliable(fails) ==>
      && (ok <==> forall r <- records :: |r| <= MAX_RECORD)
      && (!ok ==> exists k :: 0 <= k < |records| && |records[k]| > MAX_RECORD && out == Container(metadata, records[..k]))
  {
    out, ok := WriteHeader(metadata, grant, fails);
    if !ok {
      return;
    }
    assert out == Header(metadata) + [];
    var i := 0;
    while i < |records|
      invariant 0 <= i <= |records| && out == Container(metadata, records[..i]) <= Container(metadata, records)
      invariant forall k :: 0 <= k < i ==> |records[k]| <= MAX_RECORD
    {
      if |records[i]| > MAX_RECORD {
        return out, false;
      }
      ContainerGrows(metadata, records, i);
      out, ok := WriteRecord(out, records[i], grant, fails);
      if !ok {
        return;
      }
      i := i + 1;
    }
    assert records[..i] == records;
    ok := true;
  }
}
