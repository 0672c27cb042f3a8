/** The end-of-run report: the colour choice (main.py:605-607) and the
    greedy packing of detail parts into embed fields (main.py:612-628). */
module Report {

  datatype Colour = Orange | Green | Blue

  /** Orange when any archive or fetch failed, green otherwise; blue when
      nothing was archived and nothing was over the cap. */
  function ReportColour(failCount: nat, notFoundCount: nat, archivedThisRun: int, killCount: int): (c: Colour)
    ensures c == Blue <==> archivedThisRun == 0 && killCount <= 0
    ensures c == Orange <==> !(archivedThisRun == 0 && killCount <= 0) && (failCount > 0 || notFoundCount > 0)
  {
    var base := if failCount > 0 || notFoundCount > 0 then Orange else Green;
    if archivedThisRun == 0 && killCount <= 0 then Blue else base
  }

  const MaxFieldLength := 1000

  /** One embed field: the parts it joins, and whether it is the closing
      field named as a continuation. */
  datatype Field = Field(continued: bool, parts: seq<string>)

  /** Total length of a group of parts. */
  function Len(g: seq<string>): nat {
    if |g| == 0 then 0 else Len(g[..|g| - 1]) + |g[|g| - 1]|
  }

  function Flatten(gs: seq<seq<string>>): seq<string> {
    if |gs| == 0 then [] else Flatten(gs[..|gs| - 1]) + gs[|gs| - 1]
  }

  function Groups(fields: seq<Field>): (gs: seq<seq<string>>)
    ensures |gs| == |fields|
    ensures forall i :: 0 <= i < |fields| ==> gs[i] == fields[i].parts
  {
    seq(|fields|, i requires 0 <= i < |fields| => fields[i].parts)
  }

  /** A group fits, or is one oversized part on its own. */
  predicate Fits(g: seq<string>) {
    Len(g) <= MaxFieldLength || |g| == 1
  }

  /** No group is empty, every group fits, and each group was closed only
      because the next group's first part would have pushed it past the
      limit. */
  predicate WellCut(gs: seq<seq<string>>) {
    && (forall i :: 0 <= i < |gs| ==> gs[i] != [] && Fits(gs[i]))
    && (forall i :: 0 <= i < |gs| - 1 ==> Len(gs[i]) + |gs[i + 1][0]| > MaxFieldLength)
  }

  /** The greedy packing: the groups cut the parts in order, with nothing
      split or lost, and are well cut. */
  predicate IsGreedyPacking(parts: seq<string>, gs: seq<seq<string>>) {
    Flatten(gs) == parts && WellCut(gs)
  }

  lemma WellCutAppend(gs: seq<seq<string>>, g: seq<string>)
    requires WellCut(gs) && g != [] && Fits(g)
    requires gs != [] ==> Len(gs[|gs| - 1]) + |g[0]| > MaxFieldLength
    ensures WellCut(gs + [g])
  {
  }

  /** The naming of the fields: all plain except the closing one, which is
      a continuation when other fields precede it. */
  predicate NamedAsSource(fields: seq<Field>) {
    forall i :: 0 <= i < |fields| ==> (fields[i].continued <==> i == |fields| - 1 && i > 0)
  }

  /** Turns the groups into fields, naming only the closing one as a
      continuation when it is not the first. */
  function NameFields(gs: seq<seq<string>>): (fields: seq<Field>)
    ensures Groups(fields) == gs
    ensures NamedAsSource(fields)
  {
    seq(|gs|, k requires 0 <= k < |gs| => Field(k == |gs| - 1 && k > 0, gs[k]))
  }

  lemma FlattenAppend(gs: seq<seq<string>>, g: seq<string>)
    ensures Flatten(gs + [g]) == Flatten(gs) + g
  {
    assert (gs + [g])[..|gs|] == gs;
  }

  lemma LenAppend(g: seq<string>, p: string)
    ensures Len(g + [p]) == Len(g) + |p|
  {
    assert (g + [p])[..|g|] == g;
  }

  /** The packing loop's invariant after the parts `prefix`: the closed
      groups `done` and the open group `current` hold the prefix, the
      closed groups are well cut, and the open one is non-empty once a part
      was seen, fits, and was opened only because the last closed group
      was full. */
  predicate Packed(prefix: seq<string>, done: seq<seq<string>>, current: seq<string>) {
    && Flatten(done) + current == prefix
    && (prefix != [] ==> current != [])
    && (current != [] ==> Fits(current))
    && WellCut(done)
    && (done != [] ==> current != [] && Len(done[|done| - 1]) + |current[0]| > MaxFieldLength)
  }

  /** The part does not fit: the open group is closed and the part opens
      the next one. */
  lemma PackCut(prefix: seq<string>, done: seq<seq<string>>, current: seq<string>, part: string)
    requires Packed(prefix, done, current)
    requires current != [] && Len(current) + |part| > MaxFieldLength
    ensures Packed(prefix + [part], done + [current], [part])
    ensures Len([part]) == |part|
  {
    FlattenAppend(done, current);
    WellCutAppend(done, current);
    LenAppend([], part);
  }

  /** The part fits, or nothing is open: it joins the open group. */
  lemma PackGrow(prefix: seq<string>, done: seq<seq<string>>, current: seq<string>, part: string)
    requires Packed(prefix, done, current)
    requires !(current != [] && Len(current) + |part| > MaxFieldLength)
    ensures Packed(prefix + [part], done, current + [part])
    ensures Len(current + [part]) == Len(current) + |part|
  {
    LenAppend(current, part);
    assert current != [] ==> (current + [part])[0] == current[0];
    assert Flatten(done) + (current + [part]) == (Flatten(done) + current) + [part];
  }

  /** At the end the open group, if any, is closed. */
  lemma PackClose(parts: seq<string>, done: seq<seq<string>>, current: seq<string>)
    requires Packed(parts, done, current)
    ensures IsGreedyPacking(parts, if current == [] then done else done + [current])
  {
    if current != [] {
      FlattenAppend(done, current);
      WellCutAppend(done, current);
    }
  }

  lemma PrefixStep(parts: seq<string>, i: nat)
    requires i < |parts|
    ensures parts[..i + 1] == parts[..i] + [parts[i]]
  {
  }

  /** One iteration of the packing loop: close the open group when the part
      would overflow it, then put the part in the open group. */
  method PackPart(ghost prefix: seq<string>, done: seq<seq<string>>, current: seq<string>,
                  currentLength: int, part: string)
    returns (done': seq<seq<string>>, current': seq<string>, currentLength': int)
    requires Packed(prefix, done, current) && currentLength == Len(current)
    ensures Packed(prefix + [part], done', current') && currentLength' == Len(current')
  {
    if currentLength + |part| > MaxFieldLength && current != [] {
      PackCut(prefix, done, current, part);
      done', current', currentLength' := done + [current], [part], |part|;
    } else {
      PackGrow(prefix, done, current, part);
      done', current', currentLength' := done, current + [part], currentLength + |part|;
    }
  }

  /** The packing loop over the detail parts, in insertion order. */
  method PackFields(parts: seq<string>) returns (fields: seq<Field>)
    ensures IsGreedyPacking(parts, Groups(fields))
    ensures NamedAsSource(fields)
  {
    var done: seq<seq<string>> := [];
    var current: seq<string> := [];
    var currentLength := 0;
    var i := 0;
    while i < |parts|
      invariant 0 <= i <= |parts|
      invariant Packed(parts[..i], done, current)
      invariant currentLength == Len(current)
    {
      PrefixStep(parts, i);
      done, current, currentLength := PackPart(parts[..i], done, current, currentLength, parts[i]);
      i := i + 1;
    }
    assert parts[..i] == parts;
    PackClose(parts, done, current);
    if current != [] {
      done := done + [current];
    }
    fields := NameFields(done);
  }
}
