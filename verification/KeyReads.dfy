// What the key tools come to when the command that reads the file shows something else
// than the whole text: it is refused, or cut off, and still ends in exit status 0. The
// tools then work on what was shown.
module KeyReads {
  import opened Wrappers
  import opened Text
  import opened Seqs
  import opened Keys
  import opened KeyFile
  import opened KeyRuns
  import opened KeyTools

  // The entries that an add of this key appends.
  function NewEntries(key: PublicKey): seq<string> {
    [ComposeLine(FirstLineOf(key))] + Entries(CommentTail(key.comment))
  }

  // ---------------------------------------------------------------- adding

  // The old entries are all there in front after a reported add exactly if what was
  // shown had them all, or the hidden ones are those that the add appends.
  lemma WhenEntriesSurvive(hash: Hash, key: PublicKey, seen: string, before: string, after: string, fp: string)
    requires WellFormed(key) && AddOutcome(hash, Success(key), seen, before, after, Added(fp))
    ensures Entries(after) == Entries(seen) + NewEntries(key)
    ensures Entries(before) <= Entries(after)
       <==> (|| Entries(before) <= Entries(seen)
             || (Entries(seen) <= Entries(before) && Entries(before)[|Entries(seen)|..] <= NewEntries(key)))
  {
    FingerprintIdentifies(hash, key);
    EntriesAfterAdd(Fingerprints(hash), seen, key, fp);
    PrefixOfBoth(Entries(before), Entries(seen), NewEntries(key));
  }

  // What is appended reads as the key of the public key that was given, with its own
  // comment if the caller gave none and the caller's, trimmed, if it gave one.
  lemma AddedEntryReads(
    hash: Hash, pubkey: string, key: PublicKey, front: string, c: string, back: string,
    seen: string, before: string, after: string, fp: string)
    requires ParseKey(pubkey) == Success(key)
    requires All(front, IsSpace) && All(back, IsSpace) && Stripped(c) && No(c, IsBreak) && No(key.comment, IsBreak)
    requires AddOutcome(hash, KeyToAdd(pubkey, front + c + back), seen, before, after, Added(fp))
    ensures exists line ::
      && Entries(after) == Entries(seen) + [line]
      && ParseKey(line) == Success(PublicKey(key.keyType, key.blob, if front + c + back == "" then key.comment else c))
  {
    var written := KeyToAdd(pubkey, front + c + back).value;
    WhichComment(pubkey, key, front, c, back);
    KeyToAddIsWellFormed(pubkey, front + c + back);
    OneLineAdds(written);
    WhenEntriesSurvive(hash, written, seen, before, after, fp);
    ParseOfCompose(written);
  }

  lemma PrefixOfBoth<T>(a: seq<T>, b: seq<T>, c: seq<T>)
    ensures a <= b + c <==> a <= b || (b <= a && a[|b|..] <= c)
  {
    var s := b + c;
    if a <= s {
      if |a| <= |b| {
        assert a == s[..|a|] == b[..|a|];
      } else {
        assert b == s[..|b|] == a[..|b|];
        assert a[|b|..] == s[|b|..|a|] == c[..|a| - |b|];
      }
    } else if b <= a {
      assert a == b + a[|b|..];
    }
  }

  // After a reported add the unparsed lines are those that were shown, and those of the
  // comment.
  lemma UnparsedAfterAdd(hash: Hash, key: PublicKey, seen: string, before: string, after: string, fp: string)
    requires WellFormed(key) && AddOutcome(hash, Success(key), seen, before, after, Added(fp))
    ensures UnparsedIn(hash, after) == UnparsedIn(hash, seen) + UnparsedIn(hash, CommentTail(key.comment))
  {
    FingerprintIdentifies(hash, key);
    EntriesAfterAdd(Fingerprints(hash), seen, key, fp);
    UnparsedWith(Fingerprints(hash), Entries(seen), ComposeLine(FirstLineOf(key)), Entries(CommentTail(key.comment)));
  }

  // A refused read: the add is reported, and the old entries survive exactly if there
  // were none, or none but the key's own line.
  lemma RefusedAdd(hash: Hash, key: PublicKey, before: string, after: string, r: AddResult)
    requires WellFormed(key) && SingleLine(key)
    requires AddOutcome(hash, Success(key), "", before, after, r) && (r.Added? || r.AlreadyPresent?)
    ensures r.Added? && Entries(after) == [ComposeLine(key)]
    ensures Entries(before) <= Entries(after) <==> Entries(before) == [] || Entries(before) == [ComposeLine(key)]
  {
    RefusedIsAdded(hash, key, before, after, r);
    OneLineAdds(key);
    WhenEntriesSurvive(hash, key, "", before, after, r.fingerprint);
    PrefixOfOne(Entries(before), ComposeLine(key));
  }

  // And the unparsed ones survive it exactly if there were none.
  lemma RefusedAddUnparsed(hash: Hash, key: PublicKey, before: string, after: string, r: AddResult)
    requires WellFormed(key) && SingleLine(key)
    requires AddOutcome(hash, Success(key), "", before, after, r) && (r.Added? || r.AlreadyPresent?)
    ensures UnparsedIn(hash, before) <= UnparsedIn(hash, after) <==> UnparsedIn(hash, before) == []
  {
    RefusedIsAdded(hash, key, before, after, r);
    OneLineAdds(key);
    UnparsedAfterAdd(hash, key, "", before, after, r.fingerprint);
    NothingUnparsed(Fingerprints(hash));
  }

  function UnparsedIn(hash: Hash, contents: string): seq<string> { Unparsed(Fingerprints(hash), Entries(contents)) }

  lemma RefusedIsAdded(hash: Hash, key: PublicKey, before: string, after: string, r: AddResult)
    requires AddOutcome(hash, Success(key), "", before, after, r) && (r.Added? || r.AlreadyPresent?)
    ensures r.Added? && Entries("") == []
  {
    NoEntries();
  }

  lemma OneLineAdds(key: PublicKey)
    requires WellFormed(key) && SingleLine(key)
    ensures NewEntries(key) == [ComposeLine(key)] && Entries(CommentTail(key.comment)) == []
  {
    TailOfSingleEntries(key);
    SpanNotShape(key.comment, IsBreak);
  }

  lemma NothingUnparsed(id: Reading)
    ensures Unparsed(id, []) == []
  {
  }

  lemma PrefixOfOne<T>(s: seq<T>, x: T)
    ensures s <= [x] <==> s == [] || s == [x]
  {
  }

  // ---------------------------------------------------------------- removing

  // What a reported remove makes of the entries, and what it counts.
  lemma EntriesRemoved(hash: Hash, seen: string, before: string, after: string, fp: string, count: nat)
    requires RemoveOutcome(hash, Success(fp), seen, before, after, Removed(count, fp))
    ensures Removes(Fingerprints(hash), Entries(seen), Entries(before), Entries(after), fp, count)
  {
    PresentIffRemoves(Fingerprints(hash), Entries(seen), fp);
    EntriesAfterRemove(Fingerprints(hash), seen, fp);
  }

  ghost predicate Removes(id: Reading, seen: seq<string>, before: seq<string>, after: seq<string>, fp: string, count: nat) {
    && count == |seen| - |Without(id, seen, fp)|
    && after == if Present(id, seen, fp) then Without(id, seen, fp) else before
  }

  // A key whose removal was reported is still in the file exactly if it is in the file
  // and was not shown.
  lemma WhenKeyStays(hash: Hash, seen: string, before: string, after: string, fp: string, count: nat)
    requires RemoveOutcome(hash, Success(fp), seen, before, after, Removed(count, fp))
    ensures var id := Fingerprints(hash);
            Present(id, Entries(after), fp) <==> Present(id, Entries(before), fp) && !Present(id, Entries(seen), fp)
    ensures count == 0 <==> !Present(Fingerprints(hash), Entries(seen), fp)
  {
    EntriesRemoved(hash, seen, before, after, fp, count);
    PresentIffRemoves(Fingerprints(hash), Entries(seen), fp);
  }

  // The other entries are the same list after a reported remove exactly if the others
  // that were shown are, or nothing was written.
  lemma WhenOthersSurvive(hash: Hash, seen: string, before: string, after: string, fp: string, count: nat)
    requires RemoveOutcome(hash, Success(fp), seen, before, after, Removed(count, fp))
    ensures var id := Fingerprints(hash);
            Without(id, Entries(after), fp) == Without(id, Entries(before), fp)
            <==> !Present(id, Entries(seen), fp) || Without(id, Entries(seen), fp) == Without(id, Entries(before), fp)
  {
    var id := Fingerprints(hash);
    EntriesRemoved(hash, seen, before, after, fp, count);
    FilterFilter(Entries(seen), Differs(id, fp), Differs(id, fp));
  }

  // A reported remove is all that it should be, in its count and in its effect, exactly
  // if as many entries were shown as there are and the same ones with other keys; or,
  // when no entry with the key was shown, if there is none.
  lemma WhenRemoveIsRight(hash: Hash, seen: string, before: string, after: string, fp: string, count: nat)
    requires RemoveOutcome(hash, Success(fp), seen, before, after, Removed(count, fp))
    ensures RightRemove(Fingerprints(hash), Entries(before), Entries(after), fp, count)
       <==> ShowsRight(Fingerprints(hash), Entries(seen), Entries(before), fp)
  {
    EntriesRemoved(hash, seen, before, after, fp, count);
    RemovesRight(Fingerprints(hash), Entries(seen), Entries(before), Entries(after), fp, count);
  }

  ghost predicate RightRemove(id: Reading, before: seq<string>, after: seq<string>, fp: string, count: nat) {
    after == Without(id, before, fp) && count == |before| - |after|
  }

  ghost predicate ShowsRight(id: Reading, seen: seq<string>, before: seq<string>, fp: string) {
    if Present(id, seen, fp) then |seen| == |before| && Without(id, seen, fp) == Without(id, before, fp)
    else !Present(id, before, fp)
  }

  lemma RemovesRight(id: Reading, seen: seq<string>, before: seq<string>, after: seq<string>, fp: string, count: nat)
    requires Removes(id, seen, before, after, fp, count)
    ensures RightRemove(id, before, after, fp, count) <==> ShowsRight(id, seen, before, fp)
  {
    PresentIffRemoves(id, seen, fp);
    PresentIffRemoves(id, before, fp);
  }

  // A refused read: the remove reports that nothing matched and writes nothing, which is
  // right exactly if the key is not in the file.
  lemma RefusedRemove(hash: Hash, before: string, after: string, fp: string, r: RemoveResult)
    requires RemoveOutcome(hash, Success(fp), "", before, after, r) && r.Removed?
    ensures r == Removed(0, fp) && after == before
    ensures RightRemove(Fingerprints(hash), Entries(before), Entries(after), fp, 0)
       <==> !Present(Fingerprints(hash), Entries(before), fp)
  {
    NoEntries();
    NobodyPresent(Fingerprints(hash), fp);
    EntriesRemoved(hash, "", before, after, fp, r.count);
    WhenRemoveIsRight(hash, "", before, after, fp, r.count);
  }

  lemma NobodyPresent(id: Reading, fp: string)
    ensures !Present(id, [], fp) && Without(id, [], fp) == []
  {
  }

  // ---------------------------------------------------------------- both

  // Add a key on a read that showed every entry, then remove the fingerprint the add
  // reported: one entry goes and the entries are the original ones exactly if the
  // second read showed the key, besides it the original entries, and as many in all.
  lemma AddThenRemoveOverSsh(
    hash: Hash, pubkey: string, comment: string, seen: string, before: string, mid: string,
    shown: string, after: string, fp: string, count: nat)
    requires KeyToAdd(pubkey, comment).Success? && SingleLine(KeyToAdd(pubkey, comment).value)
    requires AddOutcome(hash, KeyToAdd(pubkey, comment), seen, before, mid, Added(fp)) && Entries(seen) == Entries(before)
    requires RemoveOutcome(hash, NormalizeFingerprint(fp), shown, mid, after, Removed(count, fp))
    ensures Entries(after) == Entries(before) && count == 1
       <==> ShowsRight(Fingerprints(hash), Entries(shown), Entries(mid), fp)
    ensures Present(Fingerprints(hash), Entries(mid), fp) && Without(Fingerprints(hash), Entries(mid), fp) == Entries(before)
  {
    var key, id := KeyToAdd(pubkey, comment).value, Fingerprints(hash);
    KeyToAddIsWellFormed(pubkey, comment);
    AddThenRemoveCancels(hash, seen, key);
    EntriesAfterRemove(id, mid, fp);
    PresentIffRemoves(id, Entries(mid), fp);
    WhenRemoveIsRight(hash, shown, mid, after, fp, count);
  }

  // And so after every whole read.
  lemma WholeReadsCancel(
    hash: Hash, pubkey: string, comment: string, before: string, mid: string, after: string, fp: string, count: nat)
    requires KeyToAdd(pubkey, comment).Success? && SingleLine(KeyToAdd(pubkey, comment).value)
    requires AddOutcome(hash, KeyToAdd(pubkey, comment), before, before, mid, Added(fp))
    requires RemoveOutcome(hash, NormalizeFingerprint(fp), mid, mid, after, Removed(count, fp))
    ensures Entries(after) == Entries(before) && count == 1
  {
    AddThenRemoveOverSsh(hash, pubkey, comment, before, before, mid, mid, after, fp, count);
  }

  // ---------------------------------------------------------------- inputs

  // A remove that reports success while the key stays in the file.
  ghost predicate RemoveMisreports(hash: Hash, before: string, fp: string) {
    && RemoveOutcome(hash, Success(fp), "", before, before, Removed(0, fp))
    && Present(Fingerprints(hash), Entries(before), fp)
  }

  lemma NoneReported(id: Reading, seen: string, before: string, fp: string)
    requires Entries(seen) == []
    ensures Reported(id, seen, before, before, fp, 0)
  {
    NobodyPresent(id, fp);
  }

  lemma NothingRemoved(hash: Hash, seen: string, before: string, fp: string)
    requires Entries(seen) == []
    ensures RemoveOutcome(hash, Success(fp), seen, before, before, Removed(0, fp))
  {
    NoneReported(Fingerprints(hash), seen, before, fp);
  }

  lemma OneLineHasKey(hash: Hash, key: PublicKey)
    requires WellFormed(key) && SingleLine(key)
    ensures Present(Fingerprints(hash), Entries(ComposeLine(key)), Fingerprint(hash, key.blob))
  {
    OneLineReads(key);
    ParseOfCompose(key);
    PresentInOne(Fingerprints(hash), ComposeLine(key), Fingerprint(hash, key.blob));
  }

  lemma PresentInOne(id: Reading, line: string, fp: string)
    requires id(line) == Some(fp)
    ensures Present(id, [line], fp)
  {
    assert line in [line];
  }

  lemma RefusedRemoveKeeps(hash: Hash, key: PublicKey)
    requires WellFormed(key) && SingleLine(key)
    ensures RemoveMisreports(hash, ComposeLine(key), Fingerprint(hash, key.blob))
  {
    NoEntries();
    NothingRemoved(hash, "", ComposeLine(key), Fingerprint(hash, key.blob));
    OneLineHasKey(hash, key);
  }

  lemma RefusedRemoveKeepsAKey(hash: Hash)
    ensures exists before, fp :: RemoveMisreports(hash, before, fp)
  {
    var key := SomeKey();
    RefusedRemoveKeeps(hash, key);
  }

  // An add that reports success and has rewritten the file without its old entry.
  ghost predicate AddLoses(hash: Hash, key: PublicKey, before: string, after: string) {
    && WellFormed(key)
    && AddOutcome(hash, Success(key), "", before, after, Added(Fingerprint(hash, key.blob)))
    && !(UnparsedIn(hash, before) <= UnparsedIn(hash, after))
  }

  lemma OneUnparsed(hash: Hash)
    ensures UnparsedIn(hash, "b") != []
  {
    var id := Fingerprints(hash);
    EntryReadsBack("b");
    OneLetterIsNoKey(hash);
    FilterIn(["b"], IsUnparsed(id), "b");
  }

  lemma RefusedAddHappens(hash: Hash, key: PublicKey, before: string) returns (after: string)
    requires WellFormed(key)
    ensures AddOutcome(hash, Success(key), "", before, after, Added(Fingerprint(hash, key.blob)))
  {
    var fp := Fingerprint(hash, key.blob);
    after := AddTo(Fingerprints(hash), "", ComposeLine(key), fp);
    NoEntries();
    NobodyPresent(Fingerprints(hash), fp);
    assert Rewritten(hash, key, "", after);
  }

  lemma RefusedAddLosesB(hash: Hash, key: PublicKey) returns (after: string)
    requires WellFormed(key) && SingleLine(key)
    ensures AddLoses(hash, key, "b", after)
  {
    after := RefusedAddHappens(hash, key, "b");
    RefusedAddUnparsed(hash, key, "b", after, Added(Fingerprint(hash, key.blob)));
    OneUnparsed(hash);
  }

  lemma RefusedAddLosesALine(hash: Hash)
    ensures exists key, before, after :: AddLoses(hash, key, before, after)
  {
    var key := SomeKey();
    var after := RefusedAddLosesB(hash, key);
  }

  lemma SomeKey() returns (key: PublicKey)
    ensures WellFormed(key) && SingleLine(key)
  {
    key := PublicKey("ssh-rsa", [1], "");
  }
}
