/** Who may connect after each certificate operation: the index that the operations leave, as the authentication loop
    reads it. */
module ClientAccess {
  import opened Text
  import opened IndexTxt
  import opened PkiStore
  import opened PendingAuth

  /** A name as it stands in the index: trimming leaves it alone. */
  ghost predicate Name(cn: string) {
    Trim(cn) == cn
  }

  lemma FirstStays(before: seq<IndexEntry>, after: seq<IndexEntry>, dn: string, k: nat)
    requires k < |after| && after[k].dn == dn && forall j :: 0 <= j < k ==> after[j].dn != dn
    ensures FirstWith(after, dn) == k
  {}

  /** After a reported revocation the client may not connect, however often its name is listed: the entry that decides
      is the one whose serial is listed as revoked. */
  lemma RevokedMayNotConnect(before: seq<IndexEntry>, after: seq<IndexEntry>, cn: string)
    requires Name(cn) && AltersOnly(before, after, DnOf(cn)) && UniqueSerials(after)
    requires SameNames(before, after)
    requires var i := FirstWith(before, DnOf(cn)); i < |before| && before[i].serial in RevokedSerials(after)
    ensures !Authorised(cn, after)
  {
    var i := FirstWith(before, DnOf(cn));
    SameNamesSameFirst(before, after, DnOf(cn));
    var e :| e in after && e.flag == "R" && e.serial == before[i].serial;
    var j :| 0 <= j < |after| && after[j] == e;
    assert after[i].serial == before[i].serial;
    assert j == i;
  }

  /** After a restore it may connect, if its name is one that may connect at all. */
  lemma RestoredMayConnect(es: seq<IndexEntry>, cn: string)
    requires Name(cn) && FirstWith(es, DnOf(cn)) < |es|
    ensures var i := FirstWith(es, DnOf(cn));
            Authorised(cn, es[i := Restored(es[i])]) <==> ValidExistingUsername(cn)
  {
    var i := FirstWith(es, DnOf(cn));
    FirstStays(es, es[i := Restored(es[i])], DnOf(cn), i);
  }

  /** After a rotation too, with the new certificate: the old entry has left its place and its name. */
  lemma RotatedMayConnect(es: seq<IndexEntry>, cn: string, built: IndexEntry, date: string, hash: string)
    requires Name(cn) && FirstWith(es, DnOf(cn)) < |es| && built.dn == DnOf(cn) && built.flag == "V"
    ensures var k := FirstWith(es, DnOf(cn));
            var after := es[k := built] + [Retired(es[k], cn, date, hash)];
            && (Authorised(cn, after) <==> ValidExistingUsername(cn))
            && after[|es|].dn != DnOf(cn) && after[|es|].flag == "R"
  {
    var k := FirstWith(es, DnOf(cn));
    var after := es[k := built] + [Retired(es[k], cn, date, hash)];
    forall j | 0 <= j < k ensures after[j].dn != DnOf(cn) { assert after[j] == es[j]; }
    FirstStays(es, after, DnOf(cn), k);
    ArchivedDiffers(cn, hash);
  }

  lemma ArchivedDiffers(cn: string, hash: string)
    ensures ArchivedDn(cn, hash) != DnOf(cn)
  {
    assert |ArchivedDn(cn, hash)| > |DnOf(cn)|;
  }

  /** After a reported deletion whose index rewrite went through, a name that was listed once may not connect. */
  lemma DeletedMayNotConnect(before: seq<IndexEntry>, after: seq<IndexEntry>, cn: string, hash: string)
    requires Name(cn) && AltersOnly(before, after, DnOf(cn)) && OnlyOne(before, DnOf(cn))
    requires var i := FirstWith(before, DnOf(cn)); i < |before| && after[i].dn == ArchivedDn(cn, hash)
    ensures !Authorised(cn, after) && FirstWith(after, DnOf(cn)) == |after|
  {
    var i := FirstWith(before, DnOf(cn));
    ArchivedDiffers(cn, hash);
    forall j | 0 <= j < |after| ensures after[j].dn != DnOf(cn) {
      if j != i {
        assert before[j].dn != DnOf(cn);
        assert after[j] == before[j];
      }
    }
  }

  /** The name under which an old entry is archived never connects, whatever the index says. */
  lemma ArchivedMayNotConnect(cn: string, hash: string, es: seq<IndexEntry>)
    requires Name("REVOKED-" + cn + "-" + hash)
    ensures ArchivedDn(cn, hash) == DnOf("REVOKED-" + cn + "-" + hash)
    ensures !Authorised("REVOKED-" + cn + "-" + hash, es)
  {
    var name := "REVOKED-" + cn + "-" + hash;
    assert name[..7] == "REVOKED";
    assert "/CN=REVOKED-" == "/CN=" + "REVOKED-";
    assert "/CN=" + ("REVOKED-" + cn + "-" + hash) == ("/CN=" + "REVOKED-") + cn + "-" + hash;
  }

  // ---- which names may connect at all ----

  lemma NameCharsAreSafe(cn: string)
    requires cn != "" && forall i :: 0 <= i < |cn| ==> NameChar(cn[i])
    ensures NoSpace(cn) && Trim(cn) == cn && '/' !in cn && '\\' !in cn
  {
    forall i | 0 <= i < |cn| ensures !IsSpace(cn[i]) && cn[i] != '/' && cn[i] != '\\' { assert NameChar(cn[i]); }
    TrimSame(cn);
  }

  lemma NameIsField(cn: string)
    requires NoSpace(cn)
    ensures Token(DnOf(cn))
  {
    assert NoSpace("/CN=");
    ConcatNoSpace("/CN=", cn);
  }

  lemma ValidHasNameChars(cn: string)
    requires ValidExistingUsername(cn)
    ensures 1 <= |cn| <= 63 && NameStart(cn[0]) && forall i :: 0 <= i < |cn| ==> NameChar(cn[i])
  {}

  /** A name that may connect is one index field and one path segment, and cannot be read as an option. */
  lemma ValidNamesAreSafe(cn: string)
    requires ValidExistingUsername(cn)
    ensures Name(cn) && Token(DnOf(cn)) && '/' !in cn && '\\' !in cn && 1 <= |cn| <= 63 && cn[0] != '-' && cn[0] != '.'
  {
    ValidHasNameChars(cn);
    NameCharsAreSafe(cn);
    NameIsField(cn);
  }

  /** The names of the server's own certificates and files, and of archived certificates, do not connect. */
  lemma ReservedNamesAreInvalid(cn: string)
    requires Lower(cn) == "server" || Lower(cn) == "ca" || Lower(cn) == "default" || HasPrefix(cn, "REVOKED")
             || cn == "_server_config.json" || cn == "_common_routes.json"
    ensures !ValidExistingUsername(cn)
  {}

  predicate Alphanumeric(c: char) {
    'a' <= c <= 'z' || 'A' <= c <= 'Z' || '0' <= c <= '9'
  }

  lemma {:induction false} NoDashes(s: string)
    requires '-' !in s
    ensures !Occurs(s, "--")
  {
    if s != "" {
      assert s[0] in s;
      NoDashes(s[1..]);
    }
  }

  lemma AlphanumericsAreNameChars(cn: string)
    requires forall i :: 0 <= i < |cn| ==> Alphanumeric(cn[i])
    ensures (forall i :: 0 <= i < |cn| ==> NameStart(cn[i]) && NameChar(cn[i]))
    ensures '/' !in cn && '\\' !in cn && '-' !in cn && '.' !in cn && '_' !in cn
  {
    forall i | 0 <= i < |cn|
      ensures cn[i] != '/' && cn[i] != '\\' && cn[i] != '-' && cn[i] != '.' && cn[i] != '_' && NameStart(cn[i])
    {
      assert Alphanumeric(cn[i]);
    }
  }

  lemma NotAFileName(cn: string)
    requires cn != "" && '-' !in cn && '.' !in cn && '_' !in cn
    ensures cn != "." && cn != ".." && cn != "_server_config.json" && cn != "_common_routes.json" && !HasPrefix(cn, "-")
  {
    assert cn[0] in cn;
    assert "."[0] == '.' && ".."[0] == '.' && "-"[0] == '-';
    assert "_server_config.json"[0] == '_' && "_common_routes.json"[0] == '_';
  }

  /** Every name of 1 to 63 letters and digits may connect, except the reserved ones. */
  lemma OrdinaryNamesAreValid(cn: string)
    requires 1 <= |cn| <= 63 && forall i :: 0 <= i < |cn| ==> Alphanumeric(cn[i])
    requires Lower(cn) != "server" && Lower(cn) != "ca" && Lower(cn) != "default" && !HasPrefix(cn, "REVOKED")
    ensures ValidExistingUsername(cn)
  {
    AlphanumericsAreNameChars(cn);
    NotAFileName(cn);
    NoDashes(cn);
  }
}
