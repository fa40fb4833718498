/** Which champion a history row counts for, and why one champion ranks before another. */
module ChampionMeaning {
  import opened ChampionSummary
  import opened Prelude

  // ---- keys ----

  /** The text a champion is named by: the key or, without one, the name. */
  ghost function Text(row: Row): string {
    match row.championKey
    case Some(key) => key
    case None => match row.championName
      case Some(name) => name
      case None => ""
  }

  /** The characters that are kept, by code: 0 to 9, A to Z and a to z. */
  ghost predicate Kept(c: char) {
    48 <= c as int <= 57 || 65 <= c as int <= 90 || 97 <= c as int <= 122
  }

  /** Dropping works character by character and keeps the order. */
  lemma {:induction false} AlphanumericAppend(s: string, c: char)
    ensures Alphanumeric(s + [c]) == Alphanumeric(s) + if Kept(c) then [c] else []
  {
    if s == [] {
      assert ([] + [c])[1..] == [];
    } else {
      assert (s + [c])[1..] == s[1..] + [c];
      AlphanumericAppend(s[1..], c);
    }
  }

  lemma {:induction false} AlphanumericKeeps(s: string)
    ensures forall c :: c in Alphanumeric(s) <==> c in s && Kept(c)
  {
    if s == [] {
    } else {
      AlphanumericKeeps(s[1..]);
      assert forall c :: c in s <==> c == s[0] || c in s[1..];
    }
  }

  /** A row without champion id fails to map exactly when its text has no letter or digit. A row with an id counts for
      that id, any other for what is left of its text when everything but letters and digits is dropped. */
  lemma RowCountsFor(row: Row, l: Locale)
    ensures ResolveBucketKey(row, l) == None <==>
      row.championId.None? && forall c :: c in Text(row) ==> !Kept(c)
    ensures row.championId.Some? ==> ResolveBucketKey(row, l) == Some(ById(row.championId.value))
    ensures row.championId.None? && (exists c :: c in Text(row) && Kept(c)) ==>
      ResolveBucketKey(row, l) == Some(ByName(Alphanumeric(Text(row))))
  {
    AlphanumericKeeps(Text(row));
    if Alphanumeric(Text(row)) != "" {
      assert Alphanumeric(Text(row))[0] in Text(row);
    }
  }

  /** The name of a row: what is left of its text, else its id printed, else nothing. */
  ghost function NameOf(row: Row, l: Locale): string {
    if Alphanumeric(Text(row)) != "" then Alphanumeric(Text(row))
    else if row.championId.Some? then l.idText(row.championId.value)
    else ""
  }

  /** The first name that is not empty. */
  ghost function FirstName(rows: seq<Row>, l: Locale): string {
    if rows == [] then ""
    else if NameOf(rows[0], l) != "" then NameOf(rows[0], l)
    else FirstName(rows[1..], l)
  }

  lemma {:induction false} FirstNameAppend(rows: seq<Row>, row: Row, l: Locale)
    ensures FirstName(rows + [row], l) == if FirstName(rows, l) != "" then FirstName(rows, l) else NameOf(row, l)
  {
    if rows == [] {
      assert ([] + [row])[1..] == [];
    } else {
      assert (rows + [row])[1..] == rows[1..] + [row];
      FirstNameAppend(rows[1..], row, l);
    }
  }

  lemma ResolvedName(row: Row, l: Locale)
    requires ResolveBucketKey(row, l).Some?
    ensures ResolveChampionKey(row, l) == Some(NameOf(row, l))
  {
  }

  /** A bucket is labelled with the first name among its rows. */
  lemma {:induction false} BucketsAreNamed(history: seq<Row>, l: Locale, b: Bucket)
    requires b in AggregateOf(history, l).buckets
    ensures b.championKey == FirstName(RowsOf(history, BucketIdentity(b), l), l)
  {
    if history == [] {
    } else {
      var n := |history| - 1;
      var before, row := AggregateOf(history[..n], l).buckets, history[n];
      var key := ResolveBucketKey(row, l);
      AggregateConserves(history[..n], l);
      if key.None? || (b in before && BucketIdentity(b) != key.value) {
        BucketsAreNamed(history[..n], l, b);
      } else {
        AddedBucket(before, key.value, row, l, b);
        ResolvedName(row, l);
        if prior :| prior in before && BucketIdentity(prior) == key.value && b == WithRow(prior, row, l) {
          BucketsAreNamed(history[..n], l, prior);
          RowKeepsIdentity(prior, row, l);
          FirstNameAppend(RowsOf(history[..n], key.value, l), row, l);
        } else {
          NoGames(before, key.value);
          NoBucketNoRows(history[..n], key.value, l);
          NewBucketIdentity(row, key.value, l);
          RowKeepsIdentity(NewBucket(row, l), row, l);
          FirstNameAppend([], row, l);
        }
      }
    }
  }

  // ---- the ranking ----

  /** x ranks no later than y: more games; then more games of the latest season, more wins, a later last game, and the
      name that collates first. */
  ghost predicate RanksBefore(x: Bucket, y: Bucket, l: Locale) {
    || x.games > y.games
    || (x.games == y.games
        && (|| x.latestSeasonGames > y.latestSeasonGames
            || (x.latestSeasonGames == y.latestSeasonGames
                && (|| x.wins > y.wins
                    || (x.wins == y.wins
                        && (|| x.lastPlayedAtMs > y.lastPlayedAtMs
                            || (x.lastPlayedAtMs == y.lastPlayedAtMs
                                && l.compareNames(x.championKey, y.championKey) <= 0)))))))
  }

  /** Where the win rate is asked for, the games are equal, so it is the number of wins. */
  lemma RatesAreWins(x: Bucket, y: Bucket)
    requires x.games == y.games > 0
    ensures WinRate(x) > WinRate(y) <==> x.wins > y.wins
    ensures WinRate(x) == WinRate(y) <==> x.wins == y.wins
  {
    var g := x.games as real;
    Quotients(x.wins as real, y.wins as real, g);
    Quotients(y.wins as real, x.wins as real, g);
  }

  lemma Quotients(a: real, b: real, g: real)
    requires g > 0.0
    ensures a / g > b / g <==> a > b
  {
    assert a == a / g * g && b == b / g * g;
  }

  lemma ComparedInWords(x: Bucket, y: Bucket, l: Locale)
    requires x.games > 0
    ensures NotAfter(x, y, l) <==> RanksBefore(x, y, l)
  {
    if x.games == y.games {
      RatesAreWins(x, y);
    }
  }

  lemma PrefixMember(bs: seq<Bucket>, k: nat, j: nat)
    requires k <= |bs| && j < |bs|
    ensures j < k ==> bs[j] in bs[..k]
  {
    assert j < k ==> bs[..k][j] == bs[j];
  }

  /** In these words every champion left out of the top three ranks no earlier than each of them. */
  lemma TopThreeLead(history: seq<Row>, l: Locale, b: Bucket, top: Bucket)
    requires Collates(l)
    requires b in AggregateOf(history, l).buckets && top in TopThree(Ranked(AggregateOf(history, l).buckets, l))
    requires b !in TopThree(Ranked(AggregateOf(history, l).buckets, l))
    ensures RanksBefore(top, b, l)
  {
    var buckets := AggregateOf(history, l).buckets;
    var ranked := Ranked(buckets, l);
    AggregateConserves(history, l);
    RankedInOrder(buckets, l);
    var i :| 0 <= i < |TopThree(ranked)| && TopThree(ranked)[i] == top;
    var j :| 0 <= j < |ranked| && ranked[j] == b;
    PrefixMember(ranked, |TopThree(ranked)|, j);
    assert top in ranked && top in buckets;
    ComparedInWords(top, b, l);
  }

  /** Likewise inside the top three. */
  lemma TopThreeInOrder(history: seq<Row>, l: Locale, i: nat, j: nat)
    requires Collates(l) && i < j < |TopThree(Ranked(AggregateOf(history, l).buckets, l))|
    ensures var top := TopThree(Ranked(AggregateOf(history, l).buckets, l)); RanksBefore(top[i], top[j], l)
  {
    var buckets := AggregateOf(history, l).buckets;
    var ranked := Ranked(buckets, l);
    AggregateConserves(history, l);
    RankedInOrder(buckets, l);
    assert ranked[i] in ranked && ranked[i] in buckets;
    ComparedInWords(ranked[i], ranked[j], l);
  }
}
