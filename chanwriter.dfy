/** The reader the `filestore ls` and `filestore verify` commands hand to
    the command output: it turns a stream of listing results into text,
    one formatted line per result, copied into the caller's buffer piece by
    piece.  The stream is the finite sequence of results the producer sends
    before closing it; `next` counts how many have been received. */
module FilestoreCommands {
  import opened Base
  import opened FilestoreCommon

  /** A result's line as ListRes.Format gives it, for the codec in use. */
  type Formatter = ListRes -> string

  /** The text of a stream of results: their lines, in order. */
  function Formatted(rs: seq<ListRes>, format: Formatter): string
  {
    if rs == [] then [] else Formatted(rs[..|rs| - 1], format) + format(rs[|rs| - 1])
  }

  /** With ListRes.Format as the formatter, the text of a stream is never
      shorter than the stream and ends in a newline when it is not empty. */
  lemma {:induction false} FormattedLength(rs: seq<ListRes>, c: Codec)
    ensures |Formatted(rs, r => Format(r, c))| >= |rs|
    ensures rs != [] ==> Formatted(rs, r => Format(r, c))[|Formatted(rs, r => Format(r, c))| - 1] == '\n'
  {
    if rs != [] {
      FormattedLength(rs[..|rs| - 1], c);
    }
  }

  /** Receiving one more result extends the text by its line. */
  lemma FormattedStep(rs: seq<ListRes>, k: nat, format: Formatter)
    requires k < |rs|
    ensures Formatted(rs[..k + 1], format) == Formatted(rs[..k], format) + format(rs[k])
  {
    assert rs[..k + 1][..k] == rs[..k];
  }

  /** Handing out the next sz characters of the line keeps the text
      returned plus the unread rest unchanged. */
  lemma Advance(emitted: string, buf: string, off: nat, sz: nat, chunk: string, total: string)
    requires off + sz <= |buf| && chunk == buf[off..off + sz]
    requires emitted + buf[off..] == total
    ensures (emitted + chunk) + buf[off + sz..] == total
  {
    assert buf[off..] == chunk + buf[off + sz..];
  }

  /** Receiving a line once the old one is used up extends the text by it. */
  lemma Pull(emitted: string, buf: string, off: int, line: string, total: string)
    requires 0 <= off && |buf| <= off && emitted + buf[Min(off, |buf|)..] == total
    ensures emitted + line[0..] == total + line
  {
    assert buf[Min(off, |buf|)..] == [];
    assert line[0..] == line;
  }

  function Min(a: int, b: int): int
  {
    if a <= b then a else b
  }

  /** Go's copy(p, s[from:]): copies as many characters as both sides hold
      and says how many. */
  method CopyInto(p: array<char>, s: string, from: nat) returns (sz: nat)
    requires from <= |s|
    modifies p
    ensures sz == Min(p.Length, |s| - from)
    ensures p[..sz] == s[from..from + sz]
    ensures p[sz..] == old(p[sz..])
  {
    sz := Min(p.Length, |s| - from);
    forall i | 0 <= i < sz {
      p[i] := s[from + i];
    }
  }

  /** chanWriter as written: when its line is used up it resets the offset
      and receives the next result; a closed stream gives (0, EOF). */
  class ChanWriter {
    const results: seq<ListRes>
    const format: Formatter
    var next: nat
    var buf: string
    var offset: int
    /** Everything Read has returned so far. */
    ghost var emitted: string

    ghost predicate Valid()
      reads this
    {
      0 <= offset <= |buf| && next <= |results|
    }

    /** Every result received is in the text returned so far or in the
        unread rest of the line. */
    ghost predicate Synced()
      reads this
    {
      Valid() && emitted + buf[offset..] == Formatted(results[..next], format)
    }

    constructor (results: seq<ListRes>, format: Formatter)
      ensures this.results == results && this.format == format
      ensures next == 0 && buf == "" && offset == 0 && emitted == ""
      ensures Synced()
    {
      this.results := results;
      this.format := format;
      next := 0;
      buf := "";
      offset := 0;
      emitted := "";
    }

    method Read(p: array<char>) returns (n: int, err: Option<Error>)
      requires Valid()
      modifies this, p
      ensures Valid()
      ensures 0 <= n <= p.Length
      ensures emitted == old(emitted) + p[..n]
      ensures old(offset) < |old(buf)| ==>
        && next == old(next) && buf == old(buf) && err.None?
        && n == Min(p.Length, |buf| - old(offset))
        && p[..n] == buf[old(offset)..old(offset) + n] && offset == old(offset) + n
      ensures old(offset) >= |old(buf)| && old(next) == |results| ==>
        n == 0 && err == Some(EOF) && next == old(next) && buf == old(buf) && offset == 0
      ensures old(offset) >= |old(buf)| && old(next) < |results| ==>
        && next == old(next) + 1 && buf == format(results[old(next)]) && err.None?
        && n == Min(p.Length, |buf|) && p[..n] == buf[..n] && offset == n
      ensures old(Synced()) && err.None? ==> Synced()
      ensures old(Synced()) && err == Some(EOF) ==> emitted == Formatted(results, format)
    {
      ghost var synced := Synced();
      if offset >= |buf| {
        ghost var off := offset;
        offset := 0;
        if next == |results| {
          assert results[..next] == results;
          if synced {
            assert buf[Min(off, |buf|)..] == [];
          }
          return 0, Some(EOF);
        }
        FormattedStep(results, next, format);
        if synced {
          Pull(emitted, buf, off, format(results[next]), Formatted(results[..next], format));
        }
        buf := format(results[next]);
        next := next + 1;
      }
      var sz := CopyInto(p, buf, offset);
      if synced {
        Advance(emitted, buf, offset, sz, p[..sz], Formatted(results[..next], format));
      }
      emitted := emitted + p[..sz];
      offset := offset + sz;
      return sz, None;
    }
  }

  /** After the last line is read and EOF reported, the next Read of the
      writer as written hands out that last line a second time, so the text
      read is no longer the text of the stream.  ListRes.Format never gives
      an empty line, so this holds for every result. */
  method StaleReadAfterEof(r: ListRes, format: Formatter) returns (first: int, second: int, third: int, text: string)
    requires format(r) != []
    ensures first == |format(r)| && first > 0
    ensures second == 0
    ensures third == first
    ensures text == format(r) + format(r)
    ensures text != Formatted([r], format)
  {
    var line := format(r);
    var w := new ChanWriter([r], format);
    var p := new char[|line|];
    var e;
    first, e := w.Read(p);
    text := p[..first];
    second, e := w.Read(p);
    assert e == Some(EOF);
    third, e := w.Read(p);
    text := text + p[..third];
    assert Formatted([r], format) == Formatted([], format) + line;
    assert |text| == 2 * |line| != |line|;
  }

  /** chanWriter with the stream's end checked before the offset is reset:
      once EOF is reported the offset stays at the end of the old line, so
      every later Read reports EOF again. */
  class StickyChanWriter {
    const results: seq<ListRes>
    const format: Formatter
    var next: nat
    var buf: string
    var offset: int
    ghost var emitted: string

    /** The text returned so far and the unread rest of the line are the
        text of the results received. */
    ghost predicate Valid()
      reads this
    {
      && 0 <= offset <= |buf| && next <= |results|
      && (forall r :: r in results ==> format(r) != [])
      && emitted + buf[offset..] == Formatted(results[..next], format)
    }

    /** Everything has been received and returned. */
    predicate Drained()
      reads this
    {
      offset >= |buf| && next == |results|
    }

    constructor (results: seq<ListRes>, format: Formatter)
      requires forall r :: r in results ==> format(r) != []
      ensures this.results == results && this.format == format
      ensures next == 0 && buf == "" && offset == 0 && emitted == ""
      ensures Valid()
    {
      this.results := results;
      this.format := format;
      next := 0;
      buf := "";
      offset := 0;
      emitted := "";
    }

    method Read(p: array<char>) returns (n: int, err: Option<Error>)
      requires Valid()
      modifies this, p
      ensures Valid()
      ensures 0 <= n <= p.Length
      ensures emitted == old(emitted) + p[..n]
      ensures next == old(next) + (if old(offset) >= |old(buf)| && old(next) < |results| then 1 else 0)
      ensures err.Some? <==> old(Drained())
      ensures err.Some? ==> err == Some(EOF) && n == 0 && Drained() && emitted == Formatted(results, format)
      ensures err.None? && p.Length > 0 ==> n > 0
    {
      if offset >= |buf| {
        if next == |results| {
          assert results[..next] == results;
          return 0, Some(EOF);
        }
        FormattedStep(results, next, format);
        Pull(emitted, buf, offset, format(results[next]), Formatted(results[..next], format));
        offset := 0;
        buf := format(results[next]);
        next := next + 1;
      }
      var sz := CopyInto(p, buf, offset);
      Advance(emitted, buf, offset, sz, p[..sz], Formatted(results[..next], format));
      emitted := emitted + p[..sz];
      offset := offset + sz;
      return sz, None;
    }
  }

  /** With the corrected writer, a stream of results read to the end comes
      out as exactly its text, and EOF is reported again on a later Read. */
  method ReadAll(results: seq<ListRes>, c: Codec, size: nat) returns (text: string, again: int, err: Option<Error>)
    requires size > 0
    ensures text == Formatted(results, x => Format(x, c))
    ensures again == 0 && err == Some(EOF)
  {
    var w := new StickyChanWriter(results, x => Format(x, c));
    var p := new char[size];
    var n;
    n, err := w.Read(p);
    text := p[..n];
    while err.None?
      invariant w.Valid() && text == w.emitted && w.format == (x => Format(x, c)) && w.results == results
      invariant err.Some? ==> w.Drained() && w.emitted == Formatted(results, w.format)
      invariant fresh(w) && fresh(p) && p.Length == size
      decreases |w.results| - w.next, |w.buf| - w.offset, if err.None? then 1 else 0
    {
      n, err := w.Read(p);
      text := text + p[..n];
    }
    again, err := w.Read(p);
  }
}
