/** The copy loop of 14.advio/07_mmap_io.c, and its agreement with the asynchronous copy
    of 14.advio/05_rot13.c. */
module MmapCopy {
  import opened Sequences
  import opened AioCopy

  const MAX_MAPSIZE := 1024 * 1024

  /** One pair of mappings of both files. */
  datatype Mapping = Mapping(offset: nat, length: nat)

  /** ftruncate: cut off, or extend with zeros. */
  function Resize(file: seq<Byte>, size: nat): (r: seq<Byte>)
    ensures |r| == size
    ensures forall i :: 0 <= i < size ==> r[i] == if i < |file| then file[i] else 0
  {
    if |file| >= size then file[..size] else file + Zeros(size - |file|)
  }

  /** The mapping that the loop makes when it has written so much. */
  function NextMapping(size: nat, written: nat): (m: Mapping)
    requires written < size
    ensures m.offset == written && 0 < m.length <= size - written
  {
    Mapping(written, if size - written > MAX_MAPSIZE then MAX_MAPSIZE else size - written)
  }

  /** All mappings from there on. */
  function MappingsFrom(size: nat, written: nat): seq<Mapping>
    decreases size - written
  {
    if written >= size then []
    else
      var m := NextMapping(size, written);
      [m] + MappingsFrom(size, written + m.length)
  }

  /** The mappings cover [start, end) one after the other without overlap, and each one
      begins at a multiple of MAX_MAPSIZE. */
  ghost predicate Tile(maps: seq<Mapping>, start: nat, end: nat)
    decreases |maps|
  {
    if maps == [] then start == end
    else
      && maps[0].offset == start && start % MAX_MAPSIZE == 0
      && 0 < maps[0].length <= MAX_MAPSIZE
      && Tile(maps[1..], start + maps[0].length, end)
  }

  lemma {:induction false} MappingsTile(size: nat, written: nat)
    requires written <= size && (written < size ==> written % MAX_MAPSIZE == 0)
    ensures Tile(MappingsFrom(size, written), written, size)
    decreases size - written
  {
    if written >= size {
    } else {
      MappingsTile(size, written + NextMapping(size, written).length);
    }
  }

  /** The output file when memcpy has copied one mapping. */
  function CopyMapping(input: seq<Byte>, output: seq<Byte>, m: Mapping): (r: seq<Byte>)
    requires |output| == |input| && m.offset + m.length <= |input|
    ensures |r| == |input|
  {
    output[..m.offset] + input[m.offset..m.offset + m.length] + output[m.offset + m.length..]
  }

  /** The output file after the passes of the loop from `written` on. */
  function CopyFrom(input: seq<Byte>, output: seq<Byte>, written: nat): (r: seq<Byte>)
    requires |output| == |input|
    ensures |r| == |input|
    decreases |input| - written
  {
    if written >= |input| then output
    else
      var m := NextMapping(|input|, written);
      CopyFrom(input, CopyMapping(input, output, m), written + m.length)
  }

  lemma {:induction false} CopyFromCopies(input: seq<Byte>, output: seq<Byte>, written: nat)
    requires |output| == |input| && written <= |input| && output[..written] == input[..written]
    ensures CopyFrom(input, output, written) == input
    decreases |input| - written
  {
    if written >= |input| {
    } else {
      var m := NextMapping(|input|, written);
      var next := CopyMapping(input, output, m);
      assert next[..written + m.length] == input[..written + m.length];
      CopyFromCopies(input, next, written + m.length);
    }
  }

  /** The copy into a file that holds `existing` when it is opened. */
  method Copy(input: seq<Byte>, existing: seq<Byte>) returns (output: seq<Byte>, maps: seq<Mapping>)
    ensures output == CopyFrom(input, Resize(existing, |input|), 0) == input
    ensures maps == MappingsFrom(|input|, 0) && Tile(maps, 0, |input|)
  {
    output, maps := Resize(existing, |input|), [];
    CopyFromCopies(input, output, 0);
    MappingsTile(|input|, 0);
    var written := 0;
    while written < |input|
      invariant written <= |input| == |output|
      invariant CopyFrom(input, output, written) == CopyFrom(input, Resize(existing, |input|), 0)
      invariant maps + MappingsFrom(|input|, written) == MappingsFrom(|input|, 0)
    {
      var length := 0;
      if |input| - written > MAX_MAPSIZE {
        length := MAX_MAPSIZE;
      } else {
        length := |input| - written;
      }
      var source := input[written..written + length];
      output := output[..written] + source + output[written + length..];
      maps := maps + [Mapping(written, length)];
      written := written + length;
    }
  }

  /** However the asynchronous copy runs, when it ends it has made the same file as this
      one. */
  lemma CopiesAgree(input: seq<Byte>, existing: seq<Byte>, run: seq<Action>)
    requires Runs(input, Init(), run) && After(input, Init(), run).status.Exited?
    ensures After(input, Init(), run).output == CopyFrom(input, Resize(existing, |input|), 0)
  {
    EveryRunCopies(input, run);
    CopyFromCopies(input, Resize(existing, |input|), 0);
  }
}
