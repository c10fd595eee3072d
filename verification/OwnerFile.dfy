/** The ownership file: one line of four decimal numbers per entry. What is printed scans back. */
module OwnerFile {
  import opened Words
  import opened OwnerTable

  // ----- numbers -----

  predicate IsDigit(c: char) { '0' <= c <= '9' }

  predicate IsSpace(c: char) { c == ' ' || c == '\n' || c == '\t' || c == '\r' || c == '\U{0b}' || c == '\U{0c}' }

  function Decimal(n: nat): (s: string)
    ensures s != [] && forall i :: 0 <= i < |s| ==> IsDigit(s[i])
    ensures ValueOf(s) == n
  {
    var digit := [('0' as int + n % 10) as char];
    assert ValueOf([]) == 0 && digit[..0] == [];
    if n < 10 then digit
    else
      assert (Decimal(n / 10) + digit)[..|Decimal(n / 10)|] == Decimal(n / 10);
      Decimal(n / 10) + digit
  }

  function ValueOf(s: string): nat
    requires forall i :: 0 <= i < |s| ==> IsDigit(s[i])
  {
    if s == [] then 0 else
      assert IsDigit(s[|s| - 1]);
      ValueOf(s[..|s| - 1]) * 10 + (s[|s| - 1] as int - '0' as int)
  }

  /** How many leading characters are spaces, or digits. */
  function Leading(s: string, p: char -> bool): (n: nat)
    ensures n <= |s| && (forall i :: 0 <= i < n ==> p(s[i])) && (n < |s| ==> !p(s[n]))
  {
    if s == [] || !p(s[0]) then 0 else 1 + Leading(s[1..], p)
  }

  lemma {:induction false} LeadingIs(s: string, p: char -> bool, n: nat)
    requires n <= |s| && (forall i :: 0 <= i < n ==> p(s[i])) && (n < |s| ==> !p(s[n]))
    ensures Leading(s, p) == n
    decreases n
  {
    if n > 0 { LeadingIs(s[1..], p, n - 1); }
  }

  datatype Scanned = Scanned(value: nat, rest: string)

  /** One unsigned conversion: spaces are skipped, then digits are taken. */
  function ScanNumber(s: string): (r: Option<Scanned>)
    ensures r.Some? ==> |r.value.rest| < |s|
  {
    var t := s[Leading(s, IsSpace)..];
    var n := Leading(t, IsDigit);
    if n == 0 then None else Some(Scanned(ValueOf(t[..n]), t[n..]))
  }

  lemma {:induction false} ScanDecimal(n: nat, before: string, after: string)
    requires before == "" || before == " " || before == "\n"
    requires after != "" && !IsDigit(after[0])
    ensures ScanNumber(before + (Decimal(n) + after)) == Some(Scanned(n, after))
  {
    var s := before + (Decimal(n) + after);
    LeadingIs(s, IsSpace, |before|);
    var t := s[|before|..];
    assert t == Decimal(n) + after;
    LeadingIs(t, IsDigit, |Decimal(n)|);
    assert t[..|Decimal(n)|] == Decimal(n) && t[|Decimal(n)|..] == after;
  }

  // ----- rows -----

  /** The line of one entry, followed by `more` text. */
  function PrintRow(r: Row, more: string): string {
    Decimal(r.key.dev) + (" " + (Decimal(r.key.ino) + (" " +
    (Decimal(r.owner.uid) + (" " + (Decimal(r.owner.gid) + ("\n" + more)))))))
  }

  function Print(rows: seq<Row>): string {
    if rows == [] then "" else PrintRow(rows[0], Print(rows[1..]))
  }

  /** Device, inode, user and group, with a space between them, one file to a line. */
  lemma RowLooksLike(r: Row, more: string)
    ensures PrintRow(r, more)
         == Decimal(r.key.dev) + " " + Decimal(r.key.ino) + " " + Decimal(r.owner.uid) + " " + Decimal(r.owner.gid)
            + "\n" + more
  {
  }

  datatype ScannedRow = ScannedRow(row: Row, rest: string)

  /** Four conversions; anything short of four numbers in range ends the reading. */
  function ScanRow(s: string): (r: Option<ScannedRow>)
    ensures r.Some? ==> |r.value.rest| < |s|
  {
    var dev := ScanNumber(s);
    if dev.None? then None
    else
      var ino := ScanNumber(dev.value.rest);
      if ino.None? then None
      else
        var uid := ScanNumber(ino.value.rest);
        if uid.None? then None
        else
          var gid := ScanNumber(uid.value.rest);
          if gid.None? || dev.value.value >= TWO_64 || ino.value.value >= TWO_64
             || uid.value.value >= TWO_32 || gid.value.value >= TWO_32 then None
          else
            Some(ScannedRow(Row(Key(dev.value.value, ino.value.value), Owner(uid.value.value, gid.value.value)),
                            gid.value.rest))
  }

  function Scan(s: string): seq<Row>
    decreases |s|
  {
    var r := ScanRow(s);
    if r.None? then [] else [r.value.row] + Scan(r.value.rest)
  }

  /** Four conversions in a row make a row. */
  lemma FourNumbers(s: string, r: Row, ino: string, uid: string, gid: string, rest: string)
    requires ScanNumber(s) == Some(Scanned(r.key.dev, ino))
    requires ScanNumber(ino) == Some(Scanned(r.key.ino, uid))
    requires ScanNumber(uid) == Some(Scanned(r.owner.uid, gid))
    requires ScanNumber(gid) == Some(Scanned(r.owner.gid, rest))
    ensures ScanRow(s) == Some(ScannedRow(r, rest))
  {
  }

  lemma {:induction false} ScanPrintedRow(r: Row, before: string, more: string)
    requires before == "" || before == "\n"
    ensures ScanRow(before + PrintRow(r, more)) == Some(ScannedRow(r, "\n" + more))
  {
    var gid := " " + (Decimal(r.owner.gid) + ("\n" + more));
    var uid := " " + (Decimal(r.owner.uid) + gid);
    var ino := " " + (Decimal(r.key.ino) + uid);
    var dev := before + (Decimal(r.key.dev) + ino);
    assert ScanNumber(dev) == Some(Scanned(r.key.dev, ino)) by { ScanDecimal(r.key.dev, before, ino); }
    assert ScanNumber(ino) == Some(Scanned(r.key.ino, uid)) by { ScanDecimal(r.key.ino, " ", uid); }
    assert ScanNumber(uid) == Some(Scanned(r.owner.uid, gid)) by { ScanDecimal(r.owner.uid, " ", gid); }
    assert ScanNumber(gid) == Some(Scanned(r.owner.gid, "\n" + more)) by { ScanDecimal(r.owner.gid, " ", "\n" + more); }
    FourNumbers(dev, r, ino, uid, gid, "\n" + more);
  }

  lemma {:induction false} ScanNothing(before: string)
    requires before == "" || before == "\n"
    ensures Scan(before) == []
  {
    LeadingIs(before, IsSpace, |before|);
  }

  lemma ScanStep(s: string, r: ScannedRow)
    requires ScanRow(s) == Some(r)
    ensures Scan(s) == [r.row] + Scan(r.rest)
  {
  }

  lemma ScanFirst(r: Row, before: string, more: string)
    requires before == "" || before == "\n"
    ensures Scan(before + PrintRow(r, more)) == [r] + Scan("\n" + more)
  {
    ScanPrintedRow(r, before, more);
    ScanStep(before + PrintRow(r, more), ScannedRow(r, "\n" + more));
  }

  /** A reader that takes printed rows off the front one by one. */
  ghost predicate TakesRows(read: string -> seq<Row>) {
    && read("") == [] && read("\n") == []
    && forall r, b, more :: b == "" || b == "\n" ==> read(b + PrintRow(r, more)) == [r] + read("\n" + more)
  }

  /** It reads back all of them. */
  lemma {:induction false} ReadsAll(read: string -> seq<Row>, rows: seq<Row>, before: string)
    requires (before == "" || before == "\n") && TakesRows(read)
    ensures read(before + Print(rows)) == rows
    decreases |rows|
  {
    if rows == [] {
      assert before + Print(rows) == before;
    } else {
      ReadsAll(read, rows[1..], "\n");
      assert read(before + PrintRow(rows[0], Print(rows[1..]))) == [rows[0]] + rows[1..];
    }
  }

  lemma {:induction false} ScanTakesRows()
    ensures TakesRows(Scan)
  {
    ScanNothing("");
    ScanNothing("\n");
    forall r, b, more | b == "" || b == "\n" ensures Scan(b + PrintRow(r, more)) == [r] + Scan("\n" + more) {
      ScanFirst(r, b, more);
    }
  }

  lemma {:induction false} ScanPrinted(rows: seq<Row>)
    ensures Scan(Print(rows)) == rows
  {
    ScanTakesRows();
    ReadsAll(Scan, rows, "");
    assert "" + Print(rows) == Print(rows);
  }

  /** Saving a table and loading the text in a later run gives every file the same owner. */
  lemma {:induction false} OwnersSurviveRestart(slots: seq<Slot>, hash: Hash, m: map<Key, Owner>)
    requires Table(slots, hash, m)
    ensures StoreAll(map[], Scan(Print(Rows(slots)))) == m
  {
    ScanPrinted(Rows(slots));
    RowsStoreEntries(slots);
    EntriesAreContents(slots, hash, m);
  }
}
