/**
 * The mail archive: the stored records, oldest first, and the rule that
 * accepts a new record into an archive of bounded capacity.
 */
module Archive {
  import opened Text
  import opened Players

  /** One archived mail; the timestamp is in seconds (UTC). */
  datatype MailData = MailData(senderName: string, senderId: ulong, timestamp: int, content: string)

  /** The persisted document: the archive's records. */
  datatype StoredData = StoredData(mails: seq<MailData>)

  /** Content the close handler accepts: non-empty, no white space at either end. */
  predicate ValidContent(content: string) {
    content != [] && IsTrimmed(content)
  }

  predicate AllValid(mails: seq<MailData>) {
    forall i :: 0 <= i < |mails| ==> ValidContent(mails[i].content)
  }

  /** Whether accepting one more mail evicts the oldest: only for a positive
      capacity that the archive already reaches. */
  predicate IsFull(mails: seq<MailData>, capacity: int) {
    capacity > 0 && |mails| >= capacity
  }

  /** The archive after accepting `mail`: the oldest record is evicted when
      the archive is full, and the new record goes at the end. */
  function Accept(mails: seq<MailData>, capacity: int, mail: MailData): (r: seq<MailData>)
    ensures IsFull(mails, capacity) ==> |r| == |mails| && r[..|r| - 1] == mails[1..] && r[|r| - 1] == mail
    ensures !IsFull(mails, capacity) ==> |r| == |mails| + 1 && r[..|mails|] == mails && r[|mails|] == mail
  {
    var kept := if IsFull(mails, capacity) then mails[1..] else mails;
    assert (kept + [mail])[..|kept|] == kept;
    kept + [mail]
  }

  /** Accepting a mail with valid content keeps every record valid. */
  lemma AcceptKeepsValid(mails: seq<MailData>, capacity: int, mail: MailData)
    requires AllValid(mails) && ValidContent(mail.content)
    ensures AllValid(Accept(mails, capacity, mail))
  {
    var r := Accept(mails, capacity, mail);
    forall i | 0 <= i < |r|
      ensures ValidContent(r[i].content)
    {
      if i < |r| - 1 {
        if IsFull(mails, capacity) {
          assert r[i] == r[..|r| - 1][i] == mails[i + 1];
        } else {
          assert r[i] == r[..|mails|][i];
        }
      }
    }
  }

  /** The archive after accepting each of `batch` in turn. */
  function AcceptAll(mails: seq<MailData>, capacity: int, batch: seq<MailData>): seq<MailData>
    decreases |batch|
  {
    if batch == [] then mails else AcceptAll(Accept(mails, capacity, batch[0]), capacity, batch[1..])
  }

  /** The last `k` elements of `s`, or all of `s` when it is shorter. */
  function Newest<T>(s: seq<T>, k: nat): (r: seq<T>)
    ensures |r| == if |s| <= k then |s| else k
  {
    if |s| <= k then s else s[|s| - k..]
  }

  /** Keeping the newest `k` before appending `t` keeps the same newest `k`. */
  lemma NewestOfNewest<T>(s: seq<T>, t: seq<T>, k: nat)
    ensures Newest(Newest(s, k) + t, k) == Newest(s + t, k)
  {
    if |s| > k {
      var n := s[|s| - k..];
      if t == [] {
        assert n + t == n && s + t == s;
      } else {
        var a, b := Newest(n + t, k), Newest(s + t, k);
        forall i | 0 <= i < k
          ensures a[i] == b[i]
        {
          var m := |t| + i;
          assert a[i] == (n + t)[m];
          assert b[i] == (s + t)[|s| - k + m];
        }
      }
    }
  }

  /** Accepting one mail into an archive within a positive capacity keeps
      the newest `capacity` records of the archive followed by the mail. */
  lemma AcceptIsNewest(mails: seq<MailData>, capacity: int, mail: MailData)
    requires capacity > 0 && |mails| <= capacity
    ensures Accept(mails, capacity, mail) == Newest(mails + [mail], capacity)
  {
    var r := Accept(mails, capacity, mail);
    if IsFull(mails, capacity) {
      assert r == mails[1..] + [mail] by {
        assert r == r[..|r| - 1] + [r[|r| - 1]];
      }
      assert (mails + [mail])[1..] == mails[1..] + [mail];
    } else {
      assert r == mails + [mail] by {
        assert r == r[..|mails|] + [r[|mails|]];
      }
    }
  }

  /**
   * The capacity invariant: starting from an archive within a positive
   * capacity K, accepting any batch of mails leaves exactly the newest K of
   * all records (old and new) in chronological order, or all of them if
   * there are no more than K.
   */
  lemma {:induction false} AcceptAllKeepsNewest(mails: seq<MailData>, capacity: int, batch: seq<MailData>)
    requires capacity > 0 && |mails| <= capacity
    ensures AcceptAll(mails, capacity, batch) == Newest(mails + batch, capacity)
    decreases |batch|
  {
    if batch != [] {
      var first, rest := batch[0], batch[1..];
      var next := Accept(mails, capacity, first);
      AcceptIsNewest(mails, capacity, first);
      AcceptAllKeepsNewest(next, capacity, rest);
      NewestOfNewest(mails + [first], rest, capacity);
      assert batch == [first] + rest;
      assert mails + [first] + rest == mails + batch;
      calc {
        AcceptAll(mails, capacity, batch);
        AcceptAll(next, capacity, rest);
        Newest(next + rest, capacity);
        Newest(mails + [first] + rest, capacity);
      }
    } else {
      assert mails + batch == mails;
    }
  }

  /** With no positive capacity nothing is ever evicted. */
  lemma {:induction false} AcceptAllUnbounded(mails: seq<MailData>, capacity: int, batch: seq<MailData>)
    requires capacity <= 0
    ensures AcceptAll(mails, capacity, batch) == mails + batch
    decreases |batch|
  {
    if batch != [] {
      AcceptAllUnbounded(Accept(mails, capacity, batch[0]), capacity, batch[1..]);
      assert mails + [batch[0]] + batch[1..] == mails + batch;
    } else {
      assert mails + batch == mails;
    }
  }

  /** Three mails into an empty archive of capacity two keep the last two. */
  lemma CapacityTwoScenario(a: MailData, b: MailData, c: MailData)
    ensures AcceptAll([], 2, [a, b, c]) == [b, c]
  {
    AcceptAllKeepsNewest([], 2, [a, b, c]);
    assert [] + [a, b, c] == [a, b, c];
  }
}
