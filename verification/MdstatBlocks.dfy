// Paragraphs do not interfere: parsing two texts with a blank line between them is
// parsing each of them.
module MdstatBlocks {
  import opened Wrappers
  import opened Seqs
  import opened Mdstat

  // lines starts with a, and a's last paragraph ends there.
  ghost predicate Before(g: Readers, a: seq<string>, lines: seq<string>) {
    && |a| < |lines|
    && (forall k | 0 <= k < |a| :: lines[k] == a[k])
    && g.blank(lines[|a|]) && g.header(lines[|a|]) == None
  }

  lemma {:induction false} EndBefore(g: Readers, a: seq<string>, lines: seq<string>, j: nat)
    requires Before(g, a, lines) && j <= |a|
    ensures ParagraphEnd(g, lines, j) == ParagraphEnd(g, a, j)
    decreases |a| - j
  {
    if j < |a| && !Stops(g, a[j]) {
      EndBefore(g, a, lines, j + 1);
    }
  }

  lemma {:induction false} LastBefore(g: Readers, a: seq<string>, lines: seq<string>, lo: nat, hi: nat)
    requires Before(g, a, lines) && lo <= hi <= |a|
    ensures LastStatus(g, lines, lo, hi) == LastStatus(g, a, lo, hi)
    ensures LastProgress(g, lines, lo, hi) == LastProgress(g, a, lo, hi)
    ensures RaisesIn(g, lines, lo, hi) == RaisesIn(g, a, lo, hi)
    decreases hi
  {
    if lo < hi {
      LastBefore(g, a, lines, lo, hi - 1);
    }
  }

  lemma RecordBefore(g: Readers, a: seq<string>, lines: seq<string>, i: nat)
    requires Before(g, a, lines) && i < |a| && g.header(a[i]).Some?
    ensures RecordAt(g, lines, i) == RecordAt(g, a, i)
    ensures RaisesIn(g, lines, i + 1, ParagraphEnd(g, lines, i + 1)) == RaisesIn(g, a, i + 1, ParagraphEnd(g, a, i + 1))
  {
    EndBefore(g, a, lines, i + 1);
    LastBefore(g, a, lines, i + 1, ParagraphEnd(g, a, i + 1));
  }

  lemma {:induction false} RecordsBefore(g: Readers, a: seq<string>, lines: seq<string>, i: nat)
    requires Before(g, a, lines) && i <= |a|
    ensures RecordsFrom(g, lines, i) == RecordsFrom(g, a, i) + RecordsFrom(g, lines, |a| + 1)
    ensures RaisesFrom(g, lines, i) == (RaisesFrom(g, a, i) || RaisesFrom(g, lines, |a| + 1))
    decreases |a| - i
  {
    if i == |a| {
      NoHeaderStep(g, lines, i);
      assert [] + RecordsFrom(g, lines, |a| + 1) == RecordsFrom(g, lines, |a| + 1);
    } else {
      RecordsBefore(g, a, lines, i + 1);
      if g.header(a[i]).Some? {
        RecordBefore(g, a, lines, i);
        Assoc([RecordAt(g, a, i)], RecordsFrom(g, a, i + 1), RecordsFrom(g, lines, |a| + 1));
      }
    }
  }

  // lines continues with b from index n on.
  ghost predicate Behind(b: seq<string>, lines: seq<string>, n: nat) {
    |lines| == n + |b| && forall k | 0 <= k < |b| :: lines[n + k] == b[k]
  }

  lemma {:induction false} EndBehind(g: Readers, b: seq<string>, lines: seq<string>, n: nat, j: nat)
    requires Behind(b, lines, n) && j <= |b|
    ensures ParagraphEnd(g, lines, n + j) == n + ParagraphEnd(g, b, j)
    decreases |b| - j
  {
    if j < |b| && !Stops(g, b[j]) {
      EndBehind(g, b, lines, n, j + 1);
    }
  }

  lemma {:induction false} LastBehind(g: Readers, b: seq<string>, lines: seq<string>, n: nat, lo: nat, hi: nat)
    requires Behind(b, lines, n) && lo <= hi <= |b|
    ensures LastStatus(g, lines, n + lo, n + hi) == LastStatus(g, b, lo, hi)
    ensures LastProgress(g, lines, n + lo, n + hi) == LastProgress(g, b, lo, hi)
    decreases hi
  {
    if lo < hi {
      assert lines[n + (hi - 1)] == b[hi - 1];
      LastBehind(g, b, lines, n, lo, hi - 1);
    }
  }

  lemma RaisesBehind(g: Readers, b: seq<string>, lines: seq<string>, n: nat, lo: nat, hi: nat)
    requires Behind(b, lines, n) && lo <= hi <= |b|
    ensures RaisesIn(g, lines, n + lo, n + hi) == RaisesIn(g, b, lo, hi)
  {
    if RaisesIn(g, lines, n + lo, n + hi) {
      var k :| n + lo <= k < n + hi && g.progress(lines[k]) == Malformed;
      assert lines[n + (k - n)] == b[k - n];
    }
    if RaisesIn(g, b, lo, hi) {
      var k :| lo <= k < hi && g.progress(b[k]) == Malformed;
      assert lines[n + k] == b[k];
    }
  }

  lemma {:induction false} RecordsBehind(g: Readers, b: seq<string>, lines: seq<string>, n: nat, i: nat)
    requires Behind(b, lines, n) && i <= |b|
    ensures RecordsFrom(g, lines, n + i) == RecordsFrom(g, b, i)
    ensures RaisesFrom(g, lines, n + i) == RaisesFrom(g, b, i)
    decreases |b| - i
  {
    if i < |b| {
      assert lines[n + i] == b[i];
      RecordsBehind(g, b, lines, n, i + 1);
      if g.header(b[i]).Some? {
        var end := ParagraphEnd(g, b, i + 1);
        EndBehind(g, b, lines, n, i + 1);
        LastBehind(g, b, lines, n, i + 1, end);
        RaisesBehind(g, b, lines, n, i + 1, end);
      }
    }
  }

  // Parsing a, a blank line and b: the records of a, then those of b; it raises if
  // either part does.
  lemma ParseConcat(g: Readers, a: seq<string>, blank: string, b: seq<string>)
    requires g.blank(blank) && g.header(blank) == None
    ensures Parse(g, a + [blank] + b)
         == match (Parse(g, a), Parse(g, b)) {
              case (Success(x), Success(y)) => Success(x + y)
              case _ => Failure(ValueError)
            }
  {
    var lines := a + [blank] + b;
    RecordsBefore(g, a, lines, 0);
    RecordsBehind(g, b, lines, |a| + 1, 0);
  }
}
