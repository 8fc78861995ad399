/** Certificate operations of the file store over an abstract easyrsa: which entries of the index they alter, and what
    a reported success says about the revocation list. */
module PkiStore {
  import opened Text
  import opened IndexTxt

  function DnOf(cn: string): string { "/CN=" + cn }

  function ArchivedDn(cn: string, hash: string): string { "/CN=REVOKED-" + cn + "-" + hash }

  /** The position of the first entry with the name, or the length when there is none. */
  function FirstWith(es: seq<IndexEntry>, dn: string): (n: nat)
    ensures n <= |es| && (n < |es| ==> es[n].dn == dn)
    ensures forall j :: 0 <= j < n ==> es[j].dn != dn
  {
    if es == [] || es[0].dn == dn then 0 else 1 + FirstWith(es[1..], dn)
  }

  function RevokedSerials(es: seq<IndexEntry>): set<string> {
    set e | e in es && e.flag == "R" :: e.serial
  }

  function Revoked(e: IndexEntry, date: string): IndexEntry {
    e.(flag := "R", revocation := date)
  }

  function Restored(e: IndexEntry): IndexEntry {
    e.(flag := "V", revocation := "")
  }

  /** Renaming as a later parse sees it. */
  function Renamed(e: IndexEntry, dn: string): IndexEntry {
    e.(dn := dn, identity := IdentityOf(dn))
  }

  /** A rotated-out entry: revoked and renamed. */
  function Retired(e: IndexEntry, cn: string, date: string, hash: string): IndexEntry {
    Renamed(Revoked(e, date), ArchivedDn(cn, hash))
  }

  function Swapped(es: seq<IndexEntry>, i: nat, j: nat): seq<IndexEntry>
    requires i < |es| && j < |es|
  {
    es[i := es[j]][j := es[i]]
  }

  ghost predicate UniqueSerials(es: seq<IndexEntry>) {
    forall i, j :: 0 <= i < j < |es| ==> es[i].serial != es[j].serial
  }

  /** No serial is lost or moved, and only entries of the given name differ. */
  ghost predicate AltersOnly(before: seq<IndexEntry>, after: seq<IndexEntry>, dn: string) {
    && |after| == |before|
    && forall j :: 0 <= j < |before| ==>
         after[j].serial == before[j].serial && (before[j].dn != dn ==> after[j] == before[j])
  }

  ghost predicate SameNames(before: seq<IndexEntry>, after: seq<IndexEntry>) {
    |after| == |before| && forall j :: 0 <= j < |before| ==> after[j].dn == before[j].dn
  }

  lemma {:induction false} RenderIgnoresIdentity(es: seq<IndexEntry>, i: nat, dn: string)
    requires i < |es|
    ensures Render(es[i := es[i].(dn := dn)]) == Render(es[i := Renamed(es[i], dn)])
  {
    var a, b := es[i := es[i].(dn := dn)], es[i := Renamed(es[i], dn)];
    if i > 0 {
      RenderIgnoresIdentity(es[1..], i - 1, dn);
      assert a[1..] == es[1..][i - 1 := es[i].(dn := dn)];
      assert b[1..] == es[1..][i - 1 := Renamed(es[i], dn)];
    } else {
      assert a[1..] == b[1..];
      assert Columns(a[0]) == Columns(b[0]);
    }
  }

  /** The identity of a client's entry is its common name. */
  lemma IdentityIsName(cn: string)
    ensures IdentityOf(DnOf(cn)) == cn
  {
    assert DnOf(cn) == "/CN" + ['='] + cn;
    IndexOfFirst("/CN", '=', cn);
    assert DnOf(cn)[4..] == cn;
  }

  lemma ConcatNoSpace(s: string, t: string)
    requires NoSpace(s) && NoSpace(t)
    ensures NoSpace(s + t)
  {}

  lemma ArchivedIsToken(cn: string, hash: string)
    requires NoSpace(cn) && NoSpace(hash)
    ensures Token(ArchivedDn(cn, hash))
  {
    ConcatNoSpace("/CN=REVOKED-", cn);
    ConcatNoSpace("/CN=REVOKED-" + cn, "-");
    ConcatNoSpace("/CN=REVOKED-" + cn + "-", hash);
  }

  /** No two entries have the name. */
  ghost predicate OnlyOne(es: seq<IndexEntry>, dn: string) {
    forall i, j :: 0 <= i < j < |es| ==> es[i].dn != dn || es[j].dn != dn
  }

  function Failed(ok: bool): nat { if ok then 0 else 1 }

  /** Flag and serial of the first entry with the name. */
  method StatusOf(es: seq<IndexEntry>, dn: string) returns (found: bool, flag: string, serial: string)
    ensures var i := FirstWith(es, dn);
            && found == (i < |es|)
            && if found then flag == es[i].flag && serial == es[i].serial else flag == "" && serial == ""
  {
    for i := 0 to |es|
      invariant i <= FirstWith(es, dn)
    {
      if es[i].dn == dn { return true, es[i].flag, es[i].serial; }
    }
    return false, "", "";
  }

  class FilesystemStore {
    var indexTxt: string
    var crl: set<string>
    /** How many commands and file accesses failed so far. */
    ghost var failures: nat

    function Index(): seq<IndexEntry>
      reads this
    {
      Parse(indexTxt)
    }

    /** What openssl maintains: only V, R and E lines, and no serial twice. */
    ghost predicate Valid()
      reads this
    {
      (forall e :: e in Index() ==> WellFormed(e)) && UniqueSerials(Index())
    }

    // ---- the environment ----

    /** Rewrites the index. The write truncates in place, so a failed one may leave anything. */
    method WriteIndex(txt: string) returns (ok: bool)
      modifies this`indexTxt, this`failures
      ensures failures == old(failures) + Failed(ok) && (ok ==> indexTxt == txt)
    {
      ok := *;
      failures := failures + Failed(ok);
      indexTxt := *;
      if ok { indexTxt := txt; }
    }

    /** `easyrsa revoke`: turns some V entry of the name into an R entry; a failure may have done so too. */
    method EasyrsaRevoke(cn: string, date: string) returns (ok: bool, ghost at: nat, ghost done: bool)
      requires Valid() && Token(date)
      modifies this`indexTxt, this`failures
      ensures Valid() && failures == old(failures) + Failed(ok)
      ensures done ==> at < |old(Index())| && old(Index())[at].dn == DnOf(cn) && old(Index())[at].flag == "V"
                       && Index() == old(Index())[at := Revoked(old(Index())[at], date)]
      ensures (ok ==> done) && (!done ==> indexTxt == old(indexTxt))
    {
      var es := Index();
      ok, at, done := *, 0, false;
      var pick: nat := *;
      var partial: bool := *;
      if (ok || partial) && 0 <= pick < |es| && es[pick].dn == DnOf(cn) && es[pick].flag == "V" {
        at, done := pick, true;
        var out := es[pick := Revoked(es[pick], date)];
        forall e | e in out ensures WellFormed(e) { assert WellFormed(es[pick]); }
        RoundTripExact(out);
        indexTxt := Render(out);
      } else {
        ok := false;
      }
      failures := failures + Failed(ok);
    }

    /** `easyrsa build-client-full`: appends a V entry with a serial that was not used before; a failure may have
        done so too. */
    method EasyrsaBuild(cn: string) returns (ok: bool, ghost built: IndexEntry)
      requires Valid()
      modifies this`indexTxt, this`failures
      ensures failures == old(failures) + Failed(ok)
      ensures Valid() && (ok || indexTxt != old(indexTxt) ==>
                            Index() == old(Index()) + [built] && built.dn == DnOf(cn) && built.flag == "V")
    {
      var es := Index();
      ok, built := *, *;
      var partial: bool := *;
      var e: IndexEntry := *;
      var unused: bool := forall x :: x in es ==> x.serial != e.serial;
      if (ok || partial) && unused && e.dn == DnOf(cn) && e.flag == "V" && Parse(Render([e])) == [e] {
        BuiltParses(es, e);
        built := e;
        indexTxt := Render(es + [e]);
      } else {
        ok := false;
      }
      failures := failures + Failed(ok);
    }

    /** `easyrsa gen-crl`: the list holds exactly the serials of the R entries; a failure may have rewritten it too. */
    method GenCrl() returns (ok: bool)
      modifies this`crl, this`failures
      ensures failures == old(failures) + Failed(ok)
      ensures crl == RevokedSerials(Index()) || (!ok && crl == old(crl))
    {
      ok := *;
      var partial: bool := *;
      failures := failures + Failed(ok);
      if ok || partial { crl := RevokedSerials(Index()); }
    }

    /** Re-reads the list; reading it may fail. */
    method CrlContains(serial: string) returns (readable: bool, present: bool)
      modifies this`failures
      ensures failures == old(failures) + Failed(readable) && (readable ==> present == (serial in crl))
    {
      readable := *;
      failures := failures + Failed(readable);
      present := readable && serial in crl;
    }

    method ClientStatus(cn: string) returns (flag: string, serial: string)
      ensures var i := FirstWith(Index(), DnOf(cn));
              if i < |Index()| then flag == Index()[i].flag && serial == Index()[i].serial
              else flag == "" && serial == ""
    {
      var found;
      found, flag, serial := StatusOf(Index(), DnOf(cn));
    }

    /** Regenerates the revocation list and makes sure that it holds the serial. */
    method RegenerateAndVerify(serial: string) returns (ok: bool)
      modifies this`crl, this`failures
      ensures ok ==> crl == RevokedSerials(Index()) && (serial == "" || serial in crl)
      ensures failures >= old(failures)
      ensures failures == old(failures) && (serial == "" || serial in RevokedSerials(Index())) ==> ok
    {
      ok := GenCrl();
      if ok && serial != "" {
        var readable, present := CrlContains(serial);
        ok := readable && present;
      }
    }

    // ---- the operations ----

    /** Success means that the name is in the index and its serial is listed as revoked. */
    method RevokeClient(cn: string, date: string) returns (ok: bool)
      requires Valid() && Token(date)
      modifies this
      ensures Valid() && AltersOnly(old(Index()), Index(), DnOf(cn))
      ensures ok ==> var i := FirstWith(old(Index()), DnOf(cn)); i < |old(Index())| && old(Index())[i].serial in crl
      ensures SameNames(old(Index()), Index())
      ensures ok ==> crl == RevokedSerials(Index())
      ensures failures == old(failures) && OnlyOne(old(Index()), DnOf(cn)) ==> ok
    {
      var flag0, serial := ClientStatus(cn);
      var revoked, at, done := EasyrsaRevoke(cn, date);
      if !revoked {
        var flag, _ := ClientStatus(cn);
        if flag != "R" { return false; }
      }
      var confirmed := RegenerateAndVerify(serial);
      if !confirmed { return false; }
      ghost var i := FirstWith(old(Index()), DnOf(cn));
      assert i < |old(Index())| ==> WellFormed(old(Index())[i]);
      if done { RevokeAlters(old(Index()), at, DnOf(cn), date); }
      return true;
    }

    /** Restoring a revoked client flips exactly its entry to V; if it was not R, success means that its serial is not
        in the list. `restored` stands for the three critical file restores. */
    method UnrevokeClient(cn: string, restored: bool) returns (ok: bool)
      requires Valid()
      modifies this
      ensures var es := old(Index()); var i := FirstWith(es, DnOf(cn));
              && (i == |es| ==> ok && indexTxt == old(indexTxt) && crl == old(crl))
              && (i < |es| && es[i].flag != "R" ==> indexTxt == old(indexTxt) && (ok ==> es[i].serial !in crl))
              && (i < |es| && es[i].flag == "R" && !restored ==> !ok && indexTxt == old(indexTxt))
              && (i < |es| && es[i].flag == "R" && ok ==>
                    Index() == es[i := Restored(es[i])]
                    && crl == RevokedSerials(Index()) && es[i].serial !in crl)
              && (failures == old(failures) && (i < |es| && es[i].flag == "R" ==> restored) ==> ok)
    {
      var es := Index();
      for i := 0 to |es|
        invariant indexTxt == old(indexTxt) && crl == old(crl) && failures == old(failures)
        invariant forall j :: 0 <= j < i ==> es[j].dn != DnOf(cn)
      {
        if es[i].dn != DnOf(cn) { continue; }
        assert WellFormed(es[i]) && i == FirstWith(es, DnOf(cn));
        if es[i].flag != "R" {
          var serial := es[i].serial;
          var readable, present := CrlContains(serial);
          if !readable { return false; }
          if !present { return true; }
          var regenerated := GenCrl();
          if !regenerated { return false; }
          readable, present := CrlContains(serial);
          return readable && !present;
        }
        if !restored { return false; }
        var out := es[i := Restored(es[i])];
        RestoreParses(es, i);
        var txt := RenderIndexTxt(out);
        var wrote := WriteIndex(txt);
        if !wrote { return false; }
        var generated := GenCrl();
        return generated;
      }
      return true;
    }

    /** Renames the first entry of the name and writes the index back. */
    method ArchiveFirst(cn: string, hash: string) returns (wrote: bool)
      requires Valid() && NoSpace(cn) && NoSpace(hash)
      requires FirstWith(Index(), DnOf(cn)) < |Index()|
      modifies this`indexTxt, this`failures
      ensures failures == old(failures) + Failed(wrote)
      ensures var es := old(Index()); var k := FirstWith(es, DnOf(cn));
              wrote ==> Valid() && Index() == es[k := Renamed(es[k], ArchivedDn(cn, hash))]
    {
      var es := Index();
      ghost var k := FirstWith(es, DnOf(cn));
      var out := es;
      for i := 0 to |es|
        invariant i <= k && out == es
      {
        if es[i].dn == DnOf(cn) {
          out := es[i := es[i].(dn := ArchivedDn(cn, hash))];
          break;
        }
      }
      assert out == es[k := es[k].(dn := ArchivedDn(cn, hash))];
      RenameParses(es, k, cn, hash);
      var txt := RenderIndexTxt(out);
      wrote := WriteIndex(txt);
    }

    /** Success means that the old serial is listed as revoked. `wrote` reports the index rewrite, whose failure is only
        logged; when it went through, no serial is lost and only entries of the name are altered. */
    method DeleteClient(cn: string, date: string, hash: string) returns (ok: bool, ghost wrote: bool)
      requires Valid() && Token(date) && NoSpace(cn) && NoSpace(hash)
      modifies this
      ensures ok ==> var i := FirstWith(old(Index()), DnOf(cn)); i < |old(Index())| && old(Index())[i].serial in crl
      ensures ok && wrote ==> Valid() && AltersOnly(old(Index()), Index(), DnOf(cn)) && crl == RevokedSerials(Index())
      ensures ok && wrote ==> Index()[FirstWith(old(Index()), DnOf(cn))].dn == ArchivedDn(cn, hash)
      ensures failures == old(failures) && OnlyOne(old(Index()), DnOf(cn)) ==> ok && wrote
    {
      wrote := false;
      var flag, serial := ClientStatus(cn);
      ghost var before := Index();
      ghost var first := FirstWith(before, DnOf(cn));
      var revoked, at, done := EasyrsaRevoke(cn, date);
      if !revoked && flag != "R" { return false, wrote; }
      ghost var mid := Index();
      assert first < |before| && WellFormed(before[first]);
      if done { RevokeAlters(before, at, DnOf(cn), date); }
      var w := ArchiveFirst(cn, hash);
      wrote := w;
      ArchiveAlters(before, mid, first, DnOf(cn), ArchivedDn(cn, hash));
      var confirmed := RegenerateAndVerify(serial);
      if !confirmed { return false, wrote; }
      return true, wrote;
    }

    /** Marks the first entry of the name revoked, renames it and writes the index back. */
    method RetireFirst(cn: string, date: string, hash: string) returns (found: bool, wrote: bool, serial: string)
      requires Valid() && Token(date) && NoSpace(cn) && NoSpace(hash)
      modifies this`indexTxt, this`failures
      ensures failures == old(failures) + Failed(!found || wrote)
      ensures var es := old(Index()); var k := FirstWith(es, DnOf(cn));
              && found == (k < |es|)
              && (!found ==> indexTxt == old(indexTxt))
              && (found ==> serial == es[k].serial)
              && (found && wrote ==> Valid() && Index() == es[k := Retired(es[k], cn, date, hash)])
    {
      var es := Index();
      ghost var k := FirstWith(es, DnOf(cn));
      var out := es;
      found, wrote, serial := false, false, "";
      for i := 0 to |es|
        invariant i <= k && !found && out == es
      {
        if es[i].dn == DnOf(cn) {
          serial := es[i].serial;
          out := es[i := Revoked(es[i], date).(dn := ArchivedDn(cn, hash))];
          found := true;
          break;
        }
      }
      if !found { return; }
      RetireParses(es, k, cn, date, hash);
      var txt := RenderIndexTxt(out);
      wrote := WriteIndex(txt);
    }

    /** Swaps the last entry of the name with the last entry of the serial; refuses when either is missing. */
    method SwapIntoPlace(cn: string, serial: string, ghost oldAt: nat, ghost newAt: nat) returns (ok: bool)
      requires Valid() && oldAt < |Index()| && newAt < |Index()|
      requires Index()[oldAt].serial == serial && Index()[newAt].dn == DnOf(cn)
      requires forall j :: newAt < j < |Index()| ==> Index()[j].dn != DnOf(cn)
      modifies this`indexTxt, this`failures
      ensures failures == old(failures) + Failed(ok)
      ensures ok ==> Valid() && Index() == Swapped(old(Index()), oldAt, newAt)
    {
      var es := Index();
      var newPos, oldPos, newFound, oldFound := 0, 0, false, false;
      for i := 0 to |es|
        invariant newFound <==> newAt < i || exists j :: 0 <= j < i && es[j].dn == DnOf(cn)
        invariant newFound ==> newPos < i && (newAt < i ==> newPos == newAt)
        invariant oldFound <==> oldAt < i
        invariant oldFound ==> oldPos == oldAt
      {
        if es[i].dn == DnOf(cn) { newPos, newFound := i, true; }
        if es[i].serial == serial { oldPos, oldFound := i, true; }
      }
      if !newFound || !oldFound { return false; }
      var out := es[oldPos := es[newPos]][newPos := es[oldPos]];
      assert out == Swapped(es, oldAt, newAt);
      SwapParses(es, oldAt, newAt);
      var txt := RenderIndexTxt(out);
      ok := WriteIndex(txt);
    }

    /** Success means that the new entry stands in the old one's place, the old one is last, revoked and renamed, every
        other entry is unchanged, and the old serial is listed as revoked. */
    method RotateClient(cn: string, date: string, hash: string) returns (ok: bool, ghost built: IndexEntry)
      requires Valid() && Token(date) && NoSpace(cn) && NoSpace(hash)
      modifies this
      ensures var es := old(Index()); var k := FirstWith(es, DnOf(cn));
              && (k == |es| ==> !ok && indexTxt == old(indexTxt) && crl == old(crl))
              && (ok ==> k < |es| && Index() == es[k := built] + [Retired(es[k], cn, date, hash)]
                         && built.dn == DnOf(cn) && built.flag == "V" && Valid()
                         && crl == RevokedSerials(Index()) && es[k].serial in crl)
              && (failures == old(failures) && k < |es| ==> ok)
    {
      ghost var es := Index();
      ghost var k := FirstWith(es, DnOf(cn));
      built := *;
      var found, wrote, serial := RetireFirst(cn, date, hash);
      if !found || !wrote { return false, built; }
      ghost var retired := Index();
      var made, entry := EasyrsaBuild(cn);
      if !made { return false, built; }
      built := entry;
      var swapped := SwapIntoPlace(cn, serial, k, |es|);
      if !swapped { return false, built; }
      RotatedShape(es, k, Retired(es[k], cn, date, hash), built);
      ghost var rotated := Index();
      var confirmed := RegenerateAndVerify(serial);
      if !confirmed { return false, built; }
      assert Index() == rotated;
      return true, built;
    }
  }

  lemma BuiltParses(es: seq<IndexEntry>, e: IndexEntry)
    requires UniqueSerials(es) && (forall x :: x in es ==> WellFormed(x) && x.serial != e.serial)
    requires Parse(Render([e])) == [e]
    ensures var out := es + [e];
            Parse(Render(out)) == out && UniqueSerials(out) && forall x :: x in out ==> WellFormed(x)
  {
    RoundTripExact([e]);
    assert e in [e];
    RoundTripExact(es + [e]);
  }

  /** Writing back a retired entry and reading it again changes that entry and nothing else. */
  lemma RetireParses(es: seq<IndexEntry>, k: nat, cn: string, date: string, hash: string)
    requires k < |es| && Token(date) && NoSpace(cn) && NoSpace(hash)
    requires UniqueSerials(es) && forall e :: e in es ==> WellFormed(e)
    ensures var out := es[k := Retired(es[k], cn, date, hash)];
            && Parse(Render(es[k := Revoked(es[k], date).(dn := ArchivedDn(cn, hash))])) == out
            && UniqueSerials(out) && forall e :: e in out ==> WellFormed(e)
  {
    var mid := es[k := Revoked(es[k], date)];
    assert WellFormed(es[k]);
    forall e | e in mid ensures WellFormed(e) {}
    RenameParses(mid, k, cn, hash);
    assert mid[k := Renamed(mid[k], ArchivedDn(cn, hash))] == es[k := Retired(es[k], cn, date, hash)];
    assert mid[k := mid[k].(dn := ArchivedDn(cn, hash))] == es[k := Revoked(es[k], date).(dn := ArchivedDn(cn, hash))];
  }

  lemma RestoreParses(es: seq<IndexEntry>, i: nat)
    requires i < |es| && UniqueSerials(es) && forall e :: e in es ==> WellFormed(e)
    ensures var out := es[i := Restored(es[i])];
            && Parse(Render(out)) == out && UniqueSerials(out) && (forall e :: e in out ==> WellFormed(e))
            && es[i].serial !in RevokedSerials(out)
  {
    var out := es[i := Restored(es[i])];
    assert WellFormed(es[i]) && NoSpace("V") && "V"[0] != "R"[0] && !HasPrefix("V", "R");
    forall e | e in out ensures WellFormed(e) {}
    RoundTripExact(out);
  }

  lemma RotatedShape(es: seq<IndexEntry>, k: nat, older: IndexEntry, newer: IndexEntry)
    requires k < |es| && older.flag == "R"
    ensures var out := es[k := newer] + [older];
            Swapped(es[k := older] + [newer], k, |es|) == out && older.serial in RevokedSerials(out)
  {
    assert (es[k := newer] + [older])[|es|] == older;
  }

  lemma RevokeAlters(es: seq<IndexEntry>, at: nat, dn: string, date: string)
    requires at < |es| && es[at].dn == dn
    ensures AltersOnly(es, es[at := Revoked(es[at], date)], dn) && SameNames(es, es[at := Revoked(es[at], date)])
    ensures FirstWith(es[at := Revoked(es[at], date)], dn) == FirstWith(es, dn)
  {
    var after := es[at := Revoked(es[at], date)];
    SameNamesSameFirst(es, after, dn);
  }

  lemma SameNamesSameFirst(es: seq<IndexEntry>, after: seq<IndexEntry>, dn: string)
    requires |after| == |es| && forall i :: 0 <= i < |es| ==> after[i].dn == es[i].dn
    ensures FirstWith(after, dn) == FirstWith(es, dn)
  {
    var i, j := FirstWith(es, dn), FirstWith(after, dn);
    assert i < |es| ==> after[i].dn == dn;
    assert j < |es| ==> es[j].dn == dn;
  }

  lemma ArchiveAlters(before: seq<IndexEntry>, mid: seq<IndexEntry>, k: nat, dn: string, archived: string)
    requires AltersOnly(before, mid, dn) && k < |mid| && before[k].dn == dn
    ensures AltersOnly(before, mid[k := Renamed(mid[k], archived)], dn)
  {}

  lemma SwappedUnique(es: seq<IndexEntry>, i: nat, j: nat)
    requires i < |es| && j < |es| && UniqueSerials(es)
    ensures UniqueSerials(Swapped(es, i, j))
  {}

  lemma SwapParses(es: seq<IndexEntry>, i: nat, j: nat)
    requires i < |es| && j < |es| && UniqueSerials(es) && forall e :: e in es ==> WellFormed(e)
    ensures var out := Swapped(es, i, j);
            Parse(Render(out)) == out && UniqueSerials(out) && forall e :: e in out ==> WellFormed(e)
  {
    SwappedUnique(es, i, j);
    RoundTripExact(Swapped(es, i, j));
  }

  /** Writing back a renamed entry and reading it again changes that entry's name and nothing else. */
  lemma RenameParses(es: seq<IndexEntry>, k: nat, cn: string, hash: string)
    requires k < |es| && NoSpace(cn) && NoSpace(hash) && forall e :: e in es ==> WellFormed(e)
    ensures var out := es[k := Renamed(es[k], ArchivedDn(cn, hash))];
            Parse(Render(es[k := es[k].(dn := ArchivedDn(cn, hash))])) == out && forall e :: e in out ==> WellFormed(e)
  {
    var out := es[k := Renamed(es[k], ArchivedDn(cn, hash))];
    ArchivedIsToken(cn, hash);
    RenderIgnoresIdentity(es, k, ArchivedDn(cn, hash));
    forall e | e in out ensures WellFormed(e) { assert WellFormed(es[k]); }
    RoundTripExact(out);
  }
}
