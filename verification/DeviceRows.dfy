/** Which rows of a device's answers a walk asks for, of their types and values alone. */
module DeviceRows {
  import opened Text
  import opened DeviceTree

  // ---- types and values ----

  ghost predicate HexDigits(s: string, n: nat) {
    |s| == n && forall c :: c in s ==> '0' <= c <= '9' || 'a' <= c <= 'f' || 'A' <= c <= 'F'
  }

  /** Hexadecimal digits in groups of 8, 4, 4, 4 and 12. */
  ghost predicate Uuid(s: string) {
    exists a, b, c, d, e ::
      && HexDigits(a, 8) && HexDigits(b, 4) && HexDigits(c, 4) && HexDigits(d, 4) && HexDigits(e, 12)
      && s == a + "-" + b + "-" + c + "-" + d + "-" + e
  }

  /** The row can have rows below it: it has no type, or is a string without a value, with a
      comma in it, or with a single UUID. White space around type and value does not count. */
  ghost predicate Handle(ov: ObjectRow) {
    || Trim(ov.dataType) == ""
    || (ToUpper(Trim(ov.dataType)) == "STRING"
        && (Trim(ov.value) == "" || ',' in Trim(ov.value) || Uuid(Trim(ov.value))))
  }

  lemma HexPart(s: string, i: nat, j: nat)
    requires i <= j <= |s| && forall k :: i <= k < j ==> IsHex(s[k])
    ensures HexDigits(s[i..j], j - i)
  {
    forall c | c in s[i..j]
      ensures IsHex(c)
    {
      var k :| 0 <= k < j - i && s[i..j][k] == c;
      assert s[i + k] == c;
    }
  }

  lemma UuidSplits(s: string)
    requires |s| == 36 && s[8] == '-' && s[13] == '-' && s[18] == '-' && s[23] == '-'
    ensures s == s[..8] + "-" + s[9..13] + "-" + s[14..18] + "-" + s[19..23] + "-" + s[24..36]
  {
  }

  lemma PartsHex(p: string, n: nat, i: nat)
    requires HexDigits(p, n) && i < n
    ensures IsHex(p[i])
  {
    assert p[i] in p;
  }

  lemma UuidLetters(a: string, b: string, c: string, d: string, e: string, i: nat)
    requires HexDigits(a, 8) && HexDigits(b, 4) && HexDigits(c, 4) && HexDigits(d, 4) && HexDigits(e, 12) && i < 36
    ensures var s := a + "-" + b + "-" + c + "-" + d + "-" + e;
      |s| == 36 && if i in {8, 13, 18, 23} then s[i] == '-' else IsHex(s[i])
  {
    if i < 8 {
      PartsHex(a, 8, i);
    } else if 8 < i < 13 {
      PartsHex(b, 4, i - 9);
    } else if 13 < i < 18 {
      PartsHex(c, 4, i - 14);
    } else if 18 < i < 23 {
      PartsHex(d, 4, i - 19);
    } else if 23 < i {
      PartsHex(e, 12, i - 24);
    }
  }

  lemma UuidIff(text: string)
    ensures LooksLikeUuid(text) <==> Uuid(Trim(text))
  {
    var s := Trim(text);
    if LooksLikeUuid(text) {
      assert forall k :: 0 <= k < 36 ==> if k in {8, 13, 18, 23} then s[k] == '-' else IsHex(s[k]);
      UuidSplits(s);
      HexPart(s, 0, 8);
      HexPart(s, 9, 13);
      HexPart(s, 14, 18);
      HexPart(s, 19, 23);
      HexPart(s, 24, 36);
      assert s[0..8] == s[..8];
    }
    if Uuid(s) {
      var a, b, c, d, e :|
        && HexDigits(a, 8) && HexDigits(b, 4) && HexDigits(c, 4) && HexDigits(d, 4) && HexDigits(e, 12)
        && s == a + "-" + b + "-" + c + "-" + d + "-" + e;
      forall i | 0 <= i < 36
        ensures |s| == 36 && if i in {8, 13, 18, 23} then s[i] == '-' else IsHex(s[i])
      {
        UuidLetters(a, b, c, d, e, i);
      }
      UuidLetters(a, b, c, d, e, 0);
    }
  }

  /** A row is worth asking for exactly when it can have rows below it. */
  lemma NodeIff(ov: ObjectRow)
    ensures Node(ov) <==> Handle(ov)
  {
    EqualFoldPlain(Trim(ov.dataType), "STRING");
    assert ToUpper("STRING") == "STRING" && |ToUpper("")| == 0;
    UuidIff(Trim(ov.value));
    TrimTwice(ov.value);
  }

  // ---- the rows of the groups asked for ----

  /** The path answers with itself alone. */
  ghost predicate Echo(device: Device, g: string, ov: ObjectRow) {
    g != "" && device(g) == Rows([ov]) && ov.path == g
  }

  /** A row below a path that does not echo. */
  ghost predicate Below(device: Device, g: string, ov: ObjectRow) {
    && device(g).Rows? && ov in device(g).rows && ov.path != "" && ov.path != g
    && forall e :: !Echo(device, g, e)
  }

  /** A path that stands below another that was asked for, in a row that can have rows below. */
  ghost predicate HandleIn(device: Device, asked: seq<string>, path: string) {
    exists g, ov :: g in asked && Below(device, g, ov) && Handle(ov) && ov.path == path
  }

  /** A leaf: an echo, or a row that cannot have rows below it. */
  ghost predicate LeafUnder(device: Device, asked: seq<string>, ov: ObjectRow) {
    exists g :: g in asked && (Echo(device, g, ov) || (Below(device, g, ov) && !Handle(ov)))
  }

  /** The tree has been explored: the start groups and every handle below an asked group were
      asked for, and no other path; the leaves are the echoes and the rows that cannot have rows
      below them, short of those whose path was asked for as a handle. */
  ghost predicate Explored(device: Device, starts: seq<string>, asked: seq<string>, leaves: seq<ObjectRow>) {
    && (forall s :: s in starts ==> s in asked)
    && (forall g, ov :: g in asked && Below(device, g, ov) && Handle(ov) ==> ov.path in asked)
    && (forall a :: a in asked ==> a in starts || HandleIn(device, asked, a))
    && (forall g, ov :: g in asked && Echo(device, g, ov) ==> ov in leaves)
    && (forall g, ov :: g in asked && Below(device, g, ov) && !Handle(ov) ==>
          ov in leaves || HandleIn(device, asked, ov.path))
    && (forall ov :: ov in leaves ==> LeafUnder(device, asked, ov))
    && forall a :: a in asked ==> device(a).Rows?
  }

  lemma EchoIff(device: Device, g: string)
    ensures SelfEcho(device, g) <==> exists ov :: Echo(device, g, ov)
    ensures forall ov :: Echo(device, g, ov) <==> SelfEcho(device, g) && ov == device(g).rows[0]
  {
    if SelfEcho(device, g) {
      assert device(g).rows == [device(g).rows[0]];
      assert Echo(device, g, device(g).rows[0]);
    }
    if ov :| Echo(device, g, ov) {
      assert device(g).rows[0] == ov;
    }
  }

  lemma BelowIff(device: Device, g: string, ov: ObjectRow)
    ensures Below(device, g, ov) <==> ChildRow(device, g, ov)
  {
    EchoIff(device, g);
  }

  lemma HandleProbes(device: Device, g: string, c: string)
    ensures Probes(device, g, c) <==> exists ov :: Below(device, g, ov) && Handle(ov) && ov.path == c
  {
    forall ov
      ensures Below(device, g, ov) && Handle(ov) <==> ChildRow(device, g, ov) && Node(ov)
    {
      BelowIff(device, g, ov);
      NodeIff(ov);
    }
  }

  lemma LeafRowIff(device: Device, g: string, ov: ObjectRow)
    ensures LeafRow(device, g, ov) <==> Echo(device, g, ov) || (Below(device, g, ov) && !Handle(ov))
  {
    EchoIff(device, g);
    BelowIff(device, g, ov);
    NodeIff(ov);
  }
}
