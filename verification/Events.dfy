// The contracts exchanged over the event log, and how a consumer reads one record of it.
module Events {
  import opened Wrappers

  type JobId = string
  type WorkerId = string

  // Expiration is the canonical YYYY-MM-DD date, or "" when the product has none.
  datatype ProductData = ProductData(
    merchantId: string, productId: string, name: string,
    priceCents: int, currency: string, expirationDate: string)
  {
    // The routing key. It is not injective, but equal identities give equal keys.
    function PartitionKey(): string {
      merchantId + ":" + productId
    }
  }

  datatype ProductImported = ProductImported(jobId: JobId, rowNum: int, product: ProductData)

  // What decoding a payload yields: an event, or the job id recovered from the raw bytes, if any.
  datatype Body = Decoded(evt: ProductImported) | Undecodable(recovered: Option<JobId>)

  // One record of the product topic, with the partition it was routed to.
  datatype Record = Record(partition: nat, body: Body)

  // The counters one worker incarnation reports for one job.
  datatype Snapshot = Snapshot(processed: nat, retried: nat, dead: nat) {
    function Total(): nat {
      processed + dead
    }

    predicate AtMost(that: Snapshot) {
      processed <= that.processed && retried <= that.retried && dead <= that.dead
    }

    // GREATEST, column by column.
    function Join(that: Snapshot): Snapshot {
      Snapshot(Max(processed, that.processed), Max(retried, that.retried), Max(dead, that.dead))
    }
  }

  const NOTHING := Snapshot(0, 0, 0)

  // A record of the progress topic.
  datatype Report = Report(job: JobId, worker: WorkerId, counts: Snapshot)

  function Max(a: nat, b: nat): nat {
    if a < b then b else a
  }

  // Snapshots are ordered column by column, and the greatest of two is their least upper bound.
  lemma JoinIsLeast(a: Snapshot, b: Snapshot, c: Snapshot)
    ensures a.AtMost(b) <==> a.processed <= b.processed && a.retried <= b.retried && a.dead <= b.dead
    ensures a.Join(b).AtMost(c) <==> a.AtMost(c) && b.AtMost(c)
  {
  }

  predicate IsHexDigit(c: char) {
    '0' <= c <= '9' || 'a' <= c <= 'f' || 'A' <= c <= 'F'
  }

  // The canonical textual form: 8-4-4-4-12 hexadecimal digits.
  predicate IsUuid(s: string) {
    |s| == 36 &&
    forall i :: 0 <= i < 36 ==> if i == 8 || i == 13 || i == 18 || i == 23 then s[i] == '-' else IsHexDigit(s[i])
  }

  ghost predicate HexGroup(s: string, width: nat) {
    |s| == width && forall i :: 0 <= i < |s| ==> s[i] in "0123456789abcdefABCDEF"
  }

  // Five groups of hexadecimal digits, joined by hyphens, and nothing else.
  ghost predicate Grouped(s: string, a: string, b: string, c: string, d: string, e: string) {
    && HexGroup(a, 8) && HexGroup(b, 4) && HexGroup(c, 4) && HexGroup(d, 4) && HexGroup(e, 12)
    && s == a + "-" + b + "-" + c + "-" + d + "-" + e
  }

  lemma HexDigitsAre(c: char)
    ensures IsHexDigit(c) <==> c in "0123456789abcdefABCDEF"
  {
    var digits := "0123456789abcdefABCDEF";
    if '0' <= c <= '9' { assert digits[(c - '0') as int] == c; }
    if 'a' <= c <= 'f' { assert digits[10 + (c - 'a') as int] == c; }
    if 'A' <= c <= 'F' { assert digits[16 + (c - 'A') as int] == c; }
  }

  lemma UuidGroup(s: string, from: nat, to: nat)
    requires IsUuid(s) && from <= to <= 36 && forall i :: i in [8, 13, 18, 23] ==> i < from || to <= i
    ensures HexGroup(s[from..to], to - from)
  {
    hide IsHexDigit;
    forall i | from <= i < to ensures s[i] in "0123456789abcdefABCDEF" {
      assert i !in [8, 13, 18, 23];
      HexDigitsAre(s[i]);
    }
  }

  lemma Joined(s: string)
    requires |s| == 36 && s[8] == s[13] == s[18] == s[23] == '-'
    ensures s == s[0..8] + "-" + s[9..13] + "-" + s[14..18] + "-" + s[19..23] + "-" + s[24..36]
  {
  }

  lemma GroupsOfUuid(s: string)
    requires IsUuid(s)
    ensures Grouped(s, s[0..8], s[9..13], s[14..18], s[19..23], s[24..36])
  {
    hide IsHexDigit, HexGroup;
    UuidGroup(s, 0, 8);
    UuidGroup(s, 9, 13);
    UuidGroup(s, 14, 18);
    UuidGroup(s, 19, 23);
    UuidGroup(s, 24, 36);
    Joined(s);
  }

  lemma UuidExactly(s: string)
    ensures IsUuid(s) <==> exists a, b, c, d, e :: Grouped(s, a, b, c, d, e)
  {
    hide IsHexDigit, Grouped;
    if IsUuid(s) {
      GroupsOfUuid(s);
    }
    if a, b, c, d, e :| Grouped(s, a, b, c, d, e) {
      UuidOfGroups(s, a, b, c, d, e);
    }
  }

  lemma UuidOfGroups(s: string, a: string, b: string, c: string, d: string, e: string)
    requires Grouped(s, a, b, c, d, e)
    ensures IsUuid(s)
  {
    forall i | 0 <= i < 36
      ensures if i == 8 || i == 13 || i == 18 || i == 23 then s[i] == '-' else IsHexDigit(s[i])
    {
      HexDigitsAre(s[i]);
      if i < 8 { assert s[i] == a[i]; }
      else if 8 < i < 13 { assert s[i] == b[i - 9]; }
      else if 13 < i < 18 { assert s[i] == c[i - 14]; }
      else if 18 < i < 23 { assert s[i] == d[i - 19]; }
      else if 23 < i { assert s[i] == e[i - 24]; }
    }
  }
}
