/**
 * The Java twin of the waf network cache server (Netcache.java). Two
 * listeners share one index: PORT_UPLOAD serves PUT and CLEAN,
 * PORT_DOWNLOAD serves GET, both serve LST. A command is the comma fields
 * of a 128-byte header; a reply starts with "<size>," padded to 128 bytes.
 * Unlike the Python server, put refreshes an existing entry's timestamp
 * (not its size), and clean trims whenever the total exceeds
 * MAX * CLEANRATIO, with no check against MAX first.
 */
module NetcacheJava {
  import opened Common
  import opened PyStrings
  import opened JavaStrings
  import opened CacheStore

  const PortUpload: int := 11001
  const PortDownload: int := 12001
  const HeaderSize: nat := 128

  /** MAX: 10 GiB. */
  const Max: nat := 10 * 1024 * 1024 * 1024

  /**
   * MAX * CLEANRATIO: the double product rounds to exactly 8 GiB, and a long
   * total compares with it as the integers do.
   */
  const Threshold: nat := 8_589_934_592

  /** The threshold is four fifths of MAX. */
  lemma ThresholdIsCleanRatio()
    ensures Threshold * 10 == Max * 8
  {
  }

  // ---------------------------------------------------------------------------
  // Headers
  // ---------------------------------------------------------------------------

  /** The commands run serves. */
  datatype Request =
    | List
    | Put(sig: string, name: string, size: int)
    | Get(sig: string, name: string)
    | Clean

  /**
   * Why run stops reading headers before running a command: no field at all
   * (args[0] throws), BYE, a command this port does not serve, too few fields
   * (args[i] throws), or a size new Long refuses.
   */
  datatype Failure = NoFields | Bye | Invalid | MissingField | BadSize

  /** run's dispatch of one header on a listener bound to `port`. */
  function Decode(port: int, header: string): (r: Result<Request, Failure>)
    ensures r == Err(NoFields) <==> JavaSplit(header) == []
    ensures r == Ok(List) <==> JavaSplit(header) != [] && JavaSplit(header)[0] == "LST"
    ensures r == Err(Bye) <==> JavaSplit(header) != [] && JavaSplit(header)[0] == "BYE"
    ensures r.Ok? && (r.value.Put? || r.value.Clean?) ==> port == PortUpload
    ensures r.Ok? && r.value.Get? ==> port == PortDownload
  {
    var args := JavaSplit(header);
    if args == [] then Err(NoFields)
    else if args[0] == "LST" then Ok(List)
    else if args[0] == "PUT" && port == PortUpload then
      if |args| < 4 then Err(MissingField)
      else
        match ParseLong(Trim(args[3]))
        case None => Err(BadSize)
        case Some(size) => Ok(Put(args[1], args[2], size))
    else if args[0] == "GET" && port == PortDownload then
      if |args| < 3 then Err(MissingField) else Ok(Get(args[1], Trim(args[2])))
    else if args[0] == "CLEAN" && port == PortUpload then Ok(Clean)
    else if args[0] == "BYE" then Err(Bye)
    else Err(Invalid)
  }

  /** A header whose fields are GET and two more is a GET on the download port. */
  lemma DecodeGet(header: string, sig: string, last: string)
    requires JavaSplit(header) == ["GET", sig, last]
    ensures Decode(PortDownload, header) == Ok(Get(sig, Trim(last)))
  {
    assert "GET"[0] != "LST"[0] && "GET"[0] != "PUT"[0];
  }

  /** A header whose fields are PUT and three more, the last a long, is a PUT on the upload port. */
  lemma DecodePut(header: string, sig: string, name: string, last: string, size: int)
    requires JavaSplit(header) == ["PUT", sig, name, last]
    requires ParseLong(Trim(last)) == Some(size)
    ensures Decode(PortUpload, header) == Ok(Put(sig, name, size))
  {
    assert "PUT"[0] != "LST"[0];
  }

  /** The header is one a connection's loop gets past. */
  ghost predicate Accepted(port: int, header: string)
  {
    Decode(port, header).Ok?
  }

  /** Accepting one more header extends the accepted prefix. */
  lemma AcceptedPrefix(port: int, headers: seq<string>, n: nat)
    requires n < |headers|
    requires forall k :: 0 <= k < n ==> Accepted(port, headers[k])
    requires Accepted(port, headers[n])
    ensures forall k :: 0 <= k < n + 1 ==> Accepted(port, headers[k])
  {
  }

  /** A field a client can send: no comma and no character trim() removes. */
  predicate IsField(s: string)
  {
    forall i :: 0 <= i < |s| ==> s[i] != ',' && !IsBlank(s[i])
  }

  /** The text of a request as a client writes it; LST and CLEAN need their trailing comma. */
  function RequestText(r: Request): string
  {
    match r
    case List => "LST,"
    case Clean => "CLEAN,"
    case Put(sig, name, size) => "PUT," + sig + "," + name + "," + IntToStr(size)
    case Get(sig, name) => "GET," + sig + "," + name
  }

  /** The request fits the header, its fields are plain, and a PUT size is a long. */
  predicate Sendable(r: Request)
  {
    && |RequestText(r)| <= HeaderSize
    && match r
       case Put(sig, name, size) => IsField(sig) && IsField(name) && InLong(size)
       case Get(sig, name) => IsField(sig) && IsField(name) && name != ""
       case _ => true
  }

  /** The 128-byte header carrying a request. */
  function RequestHeader(r: Request): (h: string)
    ensures Sendable(r) ==> |h| == HeaderSize
  {
    LJust(RequestText(r), HeaderSize)
  }

  /** The listener a request must go to (LST is also served on the other one). */
  function PortFor(r: Request): int
  {
    if r.Get? then PortDownload else PortUpload
  }

  /** The digits IntToStr prints hold no comma and no blank. */
  lemma IntToStrIsField(n: int)
    ensures IsField(IntToStr(n)) && IntToStr(n) != []
  {
    var s := IntToStr(n);
    forall i | 0 <= i < |s|
      ensures s[i] != ',' && !IsBlank(s[i])
    {
      if n < 0 && i == 0 {
        assert s[i] == '-';
      } else {
        assert IsDigit(s[i]);
      }
    }
  }

  /** A field followed by spaces holds no comma. */
  lemma PaddedFieldHasNoComma(s: string, t: string)
    requires IsField(t) && PaddedBy(s, t)
    ensures ',' !in s
  {
    forall i | 0 <= i < |s|
      ensures s[i] != ','
    {
      if i < |t| {
        assert s[i] == t[i];
      }
    }
  }

  /** The rest of a padded text after a prefix is the rest of the text, padded. */
  lemma PaddedTail(h: string, t: string, n: nat)
    requires PaddedBy(h, t) && n <= |t|
    ensures h == t[..n] + h[n..] && PaddedBy(h[n..], t[n..])
  {
    assert h[..n] == t[..n];
    assert h[n..][..|t| - n] == t[n..];
  }

  /** Four fields joined by commas. */
  lemma JoinFour(a: string, b: string, c: string, d: string)
    ensures Join([a, b, c, d], ",") == a + "," + b + "," + c + "," + d
  {
    assert [a, b, c, d][1..] == [b, c, d];
    assert [b, c, d][1..] == [c, d];
    assert [c, d][1..] == [d];
    assert Join([d], ",") == d;
    assert Join([c, d], ",") == c + "," + d;
    assert Join([b, c, d], ",") == b + "," + (c + "," + d);
  }

  /** Three fields joined by commas. */
  lemma JoinThree(a: string, b: string, c: string)
    ensures Join([a, b, c], ",") == a + "," + b + "," + c
  {
    assert [a, b, c][1..] == [b, c];
    assert [b, c][1..] == [c];
    assert Join([c], ",") == c;
    assert Join([b, c], ",") == b + "," + c;
  }

  /** A padded PUT header reads back as its request. */
  lemma PutRoundTrip(sig: string, name: string, size: int)
    requires Sendable(Put(sig, name, size))
    ensures Decode(PortUpload, RequestHeader(Put(sig, name, size))) == Ok(Put(sig, name, size))
  {
    var digits := IntToStr(size);
    var t := RequestText(Put(sig, name, size));
    var h := RequestHeader(Put(sig, name, size));
    var p := "PUT" + "," + sig + "," + name + ",";
    assert t == p + digits;
    PaddedTail(h, t, |p|);
    assert t[..|p|] == p && t[|p|..] == digits;
    var last := h[|p|..];
    assert h == "PUT" + "," + sig + "," + name + "," + last;
    IntToStrIsField(size);
    PaddedFieldHasNoComma(last, digits);
    JoinFour("PUT", sig, name, last);
    assert ',' !in "PUT";
    JavaSplitJoin(["PUT", sig, name, last]);
    assert !IsBlank(digits[0]) && !IsBlank(digits[|digits| - 1]);
    TrimPadded(last, digits);
    ParseLongRoundTrip(size);
    DecodePut(h, sig, name, last, size);
  }

  /** A padded GET header reads back as its request. */
  lemma GetRoundTrip(sig: string, name: string)
    requires Sendable(Get(sig, name))
    ensures Decode(PortDownload, RequestHeader(Get(sig, name))) == Ok(Get(sig, name))
  {
    var t := RequestText(Get(sig, name));
    var h := RequestHeader(Get(sig, name));
    var p := "GET" + "," + sig + ",";
    assert t == p + name;
    PaddedTail(h, t, |p|);
    assert t[..|p|] == p && t[|p|..] == name;
    var last := h[|p|..];
    assert h == "GET" + "," + sig + "," + last;
    PaddedFieldHasNoComma(last, name);
    JoinThree("GET", sig, last);
    assert ',' !in "GET";
    JavaSplitJoin(["GET", sig, last]);
    assert !IsBlank(name[0]) && !IsBlank(name[|name| - 1]);
    TrimPadded(last, name);
    DecodeGet(h, sig, last);
  }

  /** A bare command word followed by the padding reads back as that command. */
  lemma CommandRoundTrip(r: Request, word: string, port: int)
    requires r == List || r == Clean
    requires word == (if r == List then "LST" else "CLEAN")
    requires r == Clean ==> port == PortUpload
    ensures Decode(port, RequestHeader(r)) == Ok(r)
  {
    var t := RequestText(r);
    var h := RequestHeader(r);
    var p := word + ",";
    assert t == p + [];
    PaddedTail(h, t, |p|);
    var last := h[|p|..];
    PaddedFieldHasNoComma(last, []);
    assert Join([word, last], ",") == h by {
      assert [word, last][1..] == [last];
    }
    JavaSplitJoin([word, last]);
  }

  /** Every sendable request, written as a header, is decoded back on its listener. */
  lemma RequestRoundTrip(r: Request)
    requires Sendable(r)
    ensures Decode(PortFor(r), RequestHeader(r)) == Ok(r)
  {
    match r {
      case Put(sig, name, size) => PutRoundTrip(sig, name, size);
      case Get(sig, name) => GetRoundTrip(sig, name);
      case List => CommandRoundTrip(r, "LST", PortFor(r));
      case Clean => CommandRoundTrip(r, "CLEAN", PortFor(r));
    }
  }

  /** LST is served on both listeners. */
  lemma ListOnEitherPort(port: int)
    ensures Decode(port, RequestHeader(List)) == Ok(List)
  {
    CommandRoundTrip(List, "LST", port);
  }

  /** Without its trailing comma a padded command word is refused: the padding stays in args[0]. */
  lemma BareCommandRefused(port: int)
    ensures Decode(port, LJust("LST", HeaderSize)) == Err(Invalid)
  {
    var h := LJust("LST", HeaderSize);
    assert ',' !in h by {
      forall i | 0 <= i < |h|
        ensures h[i] != ','
      {
        if i < 3 {
          assert h[i] == "LST"[i];
        }
      }
    }
    assert JavaSplit(h) == [h];
  }

  /** The reply header of lst and get: "<n>," left-justified to 128 bytes. */
  function SizeHeader(n: int): (h: string)
    ensures |h| >= HeaderSize
  {
    LJust(IntToStr(n) + ",", HeaderSize)
  }

  /** The first comma field of a size header gives back the size. */
  lemma SizeHeaderRoundTrip(n: int)
    requires InLong(n)
    ensures JavaSplit(SizeHeader(n)) != [] && ParseLong(JavaSplit(SizeHeader(n))[0]) == Some(n)
  {
    var digits := IntToStr(n);
    var t := digits + ",";
    var h := SizeHeader(n);
    var pad := h[|t|..];
    IntToStrIsField(n);
    assert h == digits + [','] + pad by {
      assert h[..|t|] == t;
    }
    SplitHead(digits, ',', pad);
    assert h[|digits|] == ',';
    ParseLongRoundTrip(n);
  }

  /** lst's body: every key followed by a newline. */
  function Lines(keys: seq<string>): string
  {
    if keys == [] then "" else keys[0] + "\n" + Lines(keys[1..])
  }

  lemma {:induction false} LinesAppend(keys: seq<string>, k: string)
    ensures Lines(keys + [k]) == Lines(keys) + k + "\n"
  {
    if keys != [] {
      assert (keys + [k])[1..] == keys[1..] + [k];
      LinesAppend(keys[1..], k);
    } else {
      assert [k][1..] == [];
    }
  }

  /** One more key of a list extends the lines of its prefix. */
  lemma LinesPrefixStep(keys: seq<string>, i: nat)
    requires i < |keys|
    ensures Lines(keys[..i + 1]) == Lines(keys[..i]) + keys[i] + "\n"
  {
    LinesAppend(keys[..i], keys[i]);
    assert keys[..i + 1] == keys[..i] + [keys[i]];
  }

  lemma {:induction false} LinesAsJoin(keys: seq<string>)
    ensures Lines(keys) == Join(keys + [""], "\n")
  {
    if keys != [] {
      assert (keys + [""])[1..] == keys[1..] + [""];
      LinesAsJoin(keys[1..]);
    }
  }

  /** A client splitting the lst body at newlines gets the keys back, then an empty tail. */
  lemma LinesSplit(keys: seq<string>)
    requires forall i :: 0 <= i < |keys| ==> '\n' !in keys[i]
    ensures Split(Lines(keys), '\n') == keys + [""]
  {
    LinesAsJoin(keys);
    SplitJoin(keys + [""], '\n');
  }

  // ---------------------------------------------------------------------------
  // The index
  // ---------------------------------------------------------------------------

  /** compare: Long.compareTo on the timestamps. */
  function Compare(a: Entry, b: Entry): (r: int)
    ensures r == -1 || r == 0 || r == 1
  {
    if a.timestamp < b.timestamp then -1 else if a.timestamp == b.timestamp then 0 else 1
  }

  /** compare is a total preorder, as Collections.sort requires of a comparator. */
  lemma CompareIsPreorder(a: Entry, b: Entry, c: Entry)
    ensures Compare(a, b) == -Compare(b, a)
    ensures Compare(a, b) <= 0 && Compare(b, c) <= 0 ==> Compare(a, c) <= 0
    ensures Compare(a, b) <= 0 <==> a.timestamp <= b.timestamp
  {
  }

  /** `order` lists the keys of flist, each once, ascending under compare. */
  predicate SortedBy(flist: map<string, Entry>, order: seq<string>)
  {
    && (forall i :: 0 <= i < |order| ==> order[i] in flist)
    && (forall k :: k in flist ==> k in order)
    && |order| == |flist|
    && (forall i, j :: 0 <= i < j < |order| ==> order[i] != order[j])
    && (forall i, j :: 0 <= i < j < |order| ==> Compare(flist[order[i]], flist[order[j]]) <= 0)
  }

  /**
   * The state of the sort after picking `order`: the keys still in `rest`
   * come later, and `order` is ascending and holds each picked key once.
   */
  ghost predicate Selecting(flist: map<string, Entry>, order: seq<string>, rest: set<string>)
  {
    && rest <= flist.Keys
    && (forall i :: 0 <= i < |order| ==> order[i] in flist && order[i] !in rest)
    && (forall k :: k in flist ==> k in rest || k in order)
    && |order| + |rest| == |flist|
    && (forall i, j :: 0 <= i < j < |order| ==> order[i] != order[j])
    && (forall i, j :: 0 <= i < j < |order| ==> Compare(flist[order[i]], flist[order[j]]) <= 0)
    && (forall i, k :: 0 <= i < |order| && k in rest ==> flist[order[i]].timestamp <= flist[k].timestamp)
  }

  /** Appending an oldest key of `rest` keeps the sort's state. */
  lemma SelectStep(flist: map<string, Entry>, order: seq<string>, rest: set<string>, k: string)
    requires Selecting(flist, order, rest)
    requires k in rest && forall j :: j in rest ==> flist[k].timestamp <= flist[j].timestamp
    ensures Selecting(flist, order + [k], rest - {k})
  {
    var order' := order + [k];
    forall i, j | 0 <= i < j < |order'|
      ensures order'[i] != order'[j] && Compare(flist[order'[i]], flist[order'[j]]) <= 0
    {
      if j == |order| {
        assert order'[j] == k && order'[i] == order[i];
      }
    }
    forall k' | k' in flist
      ensures k' in rest - {k} || k' in order'
    {
      if k' == k {
        assert order'[|order|] == k;
      }
    }
  }

  /** Collections.sort(k, this) on the index's values, by repeatedly taking the oldest left. */
  method SortByTimestamp(flist: map<string, Entry>) returns (order: seq<string>)
    ensures SortedBy(flist, order)
  {
    order := [];
    var rest := flist.Keys;
    while rest != {}
      invariant Selecting(flist, order, rest)
      decreases |rest|
    {
      var left := map k | k in rest :: flist[k];
      ghost var some :| some in rest;
      assert some in left;
      var k := Oldest(left);
      forall j | j in rest
        ensures flist[k].timestamp <= flist[j].timestamp
      {
        assert left[j] == flist[j];
      }
      SelectStep(flist, order, rest, k);
      order := order + [k];
      rest := rest - {k};
    }
  }

  /** clean's outcome: the least recently used entries are gone, until the total is at most MAX * CLEANRATIO. */
  ghost predicate Cleaned(flist0: map<string, Entry>, disk0: Disk, flist: map<string, Entry>, disk: Disk, ok: bool)
  {
    && Evicted(flist0, flist)
    && DirsRemoved(disk0, disk, flist0.Keys - flist.Keys)
    && (ok ==> TotalSize(flist) <= Threshold)
    && (flist != flist0 ==> exists r :: r in flist0 && r !in flist && TotalSize(flist) + flist0[r].size > Threshold)
    && (!ok ==> TotalSize(flist) > Threshold && exists k :: IsOldest(flist, k) && |k| < 2)
  }

  /** The state of clean's loop at position `cur` of the sorted list; `last` is the entry evicted last. */
  ghost predicate CleanState(flist0: map<string, Entry>, order: seq<string>, cur: nat, index: map<string, Entry>, total: int, last: string)
  {
    && SortedBy(flist0, order)
    && cur <= |order|
    && (forall k :: k in index <==> k in order[cur..])
    && (forall k :: k in index ==> k in flist0 && index[k] == flist0[k])
    && total == TotalSize(index)
    && Evicted(flist0, index)
    && (index != flist0 ==> last in flist0 && last !in index && total + flist0[last].size > Threshold)
  }

  lemma CleanStart(flist0: map<string, Entry>, disk0: Disk, order: seq<string>)
    requires SortedBy(flist0, order)
    ensures CleanState(flist0, order, 0, flist0, TotalSize(flist0), "")
    ensures DirsRemoved(disk0, disk0, flist0.Keys - flist0.Keys)
  {
    assert order[0..] == order;
    assert flist0.Keys - flist0.Keys == {};
  }

  /** Above the threshold some entry is left. */
  lemma CleanNotExhausted(flist0: map<string, Entry>, order: seq<string>, cur: nat, index: map<string, Entry>, total: int, last: string)
    requires CleanState(flist0, order, cur, index, total, last) && total > Threshold
    ensures cur < |order|
  {
    if cur == |order| {
      assert order[cur..] == [];
      assert index == map[];
      EmptyTotal();
    }
  }

  /** The next entry of the sorted list is an oldest one left. */
  lemma NextIsOldest(flist0: map<string, Entry>, order: seq<string>, cur: nat, index: map<string, Entry>)
    requires SortedBy(flist0, order) && cur < |order|
    requires forall k :: k in index <==> k in order[cur..]
    requires forall k :: k in index ==> k in flist0 && index[k] == flist0[k]
    ensures IsOldest(index, order[cur])
  {
    var k := order[cur];
    assert k in order[cur..];
    forall j | j in index
      ensures index[k].timestamp <= index[j].timestamp
    {
      var m :| cur <= m < |order| && order[m] == j;
      if m != cur {
        assert Compare(flist0[order[cur]], flist0[order[m]]) <= 0;
      }
    }
  }

  /** Dropping the next entry leaves exactly the rest of the list. */
  lemma NextKeys(order: seq<string>, cur: nat, index: map<string, Entry>)
    requires cur < |order|
    requires forall i, j :: 0 <= i < j < |order| ==> order[i] != order[j]
    requires forall k :: k in index <==> k in order[cur..]
    ensures forall k :: k in index - {order[cur]} <==> k in order[cur + 1..]
  {
    forall j
      ensures j in index - {order[cur]} <==> j in order[cur + 1..]
    {
      if j in order[cur + 1..] {
        var m :| cur + 1 <= m < |order| && order[m] == j;
        assert order[m] in order[cur..];
      }
      if j in index - {order[cur]} {
        var m :| cur <= m < |order| && order[m] == j;
        assert m != cur;
      }
    }
  }

  /** The loop state from its parts. */
  lemma CleanStateIntro(flist0: map<string, Entry>, order: seq<string>, cur: nat, index: map<string, Entry>, total: int, last: string)
    requires SortedBy(flist0, order)
    requires cur <= |order|
    requires forall k :: k in index <==> k in order[cur..]
    requires forall k :: k in index ==> k in flist0 && index[k] == flist0[k]
    requires total == TotalSize(index)
    requires Evicted(flist0, index)
    requires index != flist0 ==> last in flist0 && last !in index && total + flist0[last].size > Threshold
    ensures CleanState(flist0, order, cur, index, total, last)
  {
  }

  /** Evicting the next entry of the sorted list keeps the state. */
  lemma CleanStep(flist0: map<string, Entry>, order: seq<string>, cur: nat, index: map<string, Entry>, total: int, last: string)
    requires CleanState(flist0, order, cur, index, total, last) && total > Threshold
    ensures cur < |order| && IsOldest(index, order[cur])
    ensures index[order[cur]].size <= total
    ensures CleanState(flist0, order, cur + 1, index - {order[cur]}, total - index[order[cur]].size, order[cur])
  {
    CleanNotExhausted(flist0, order, cur, index, total, last);
    NextIsOldest(flist0, order, cur, index);
    var k := order[cur];
    TotalSizeRemove(index, k);
    EvictOldest(flist0, index, k);
    NextKeys(order, cur, index);
    CleanStateIntro(flist0, order, cur + 1, index - {k}, total - index[k].size, k);
  }

  lemma CleanDone(flist0: map<string, Entry>, disk0: Disk, order: seq<string>, cur: nat, index: map<string, Entry>, dirs: Disk, total: int, last: string)
    requires CleanState(flist0, order, cur, index, total, last) && total <= Threshold
    requires DirsRemoved(disk0, dirs, flist0.Keys - index.Keys)
    ensures Cleaned(flist0, disk0, index, dirs, true)
  {
  }

  lemma CleanFailed(flist0: map<string, Entry>, disk0: Disk, order: seq<string>, cur: nat, index: map<string, Entry>, dirs: Disk, total: int, last: string, k: string)
    requires CleanState(flist0, order, cur, index, total, last) && total > Threshold
    requires DirsRemoved(disk0, dirs, flist0.Keys - index.Keys)
    requires IsOldest(index, k) && |k| < 2
    ensures Cleaned(flist0, disk0, index, dirs, false)
  {
  }

  /** put's index update: an entry's timestamp is refreshed and its size kept; a new one is [mtime, size]. */
  ghost function Stamped(flist: map<string, Entry>, sig: string, dir: SigDir): (f: map<string, Entry>)
    ensures f.Keys == flist.Keys + {sig}
    ensures sig in flist ==> f[sig] == Entry(dir.mtime, flist[sig].size)
    ensures sig !in flist ==> f[sig] == Entry(dir.mtime, Sum(dir.files))
    ensures forall k :: k in flist && k != sig ==> f[k] == flist[k]
  {
    flist[sig := if sig in flist then flist[sig].(timestamp := dir.mtime) else DirEntry(dir)]
  }

  // ---------------------------------------------------------------------------
  // What one command does, from the state before it to the state after it
  // ---------------------------------------------------------------------------

  /** The keys of flist, each once, in some order. */
  ghost predicate Listed(flist: map<string, Entry>, keys: seq<string>)
  {
    && |keys| == |flist|
    && (forall k :: k in flist <==> k in keys)
    && (forall a, b :: 0 <= a < b < |keys| ==> keys[a] != keys[b])
  }

  /**
   * get: a signature shorter than two characters throws before any reply; a
   * miss answers a size of 0 and changes nothing; a hit answers the size and
   * the file, touches the directory and stamps the entry, and throws when the
   * signature is missing from flist. An empty name names the signature
   * directory itself: its length, which the File API leaves unspecified, is
   * sent, and opening it for reading throws.
   */
  ghost predicate GotFile(flist0: map<string, Entry>, disk0: Disk, sig: string, name: string, now: int,
                          flist: map<string, Entry>, disk: Disk, ok: bool, reply: Reply)
  {
    var dirHit := |sig| >= 2 && name == "" && HasDir(disk0, sig);
    var found := |sig| >= 2 && name != "" && HasDir(disk0, sig) && name in DirAt(disk0, sig).files;
    && (ok <==> found && sig in flist0)
    && (|sig| < 2 ==> reply == Silent)
    && (|sig| >= 2 && !found && !dirHit ==> reply == Header(SizeHeader(0)))
    && (dirHit ==> SizeHeaderOnly(reply))
    && (!found ==> flist == flist0 && disk == disk0)
    && (found ==>
          var size := DirAt(disk0, sig).files[name];
          && reply == WithData(SizeHeader(size), size)
          && disk == Touch(disk0, sig, now))
    && (ok ==> flist == flist0[sig := flist0[sig].(timestamp := now)])
    && (!ok ==> flist == flist0)
  }

  /** A size header with no data after it. */
  ghost predicate SizeHeaderOnly(reply: Reply)
  {
    exists n: nat :: reply == Header(SizeHeader(n))
  }

  /**
   * put: it succeeds exactly when `size` bytes arrive, the signature has two
   * characters to shard by and the name is not empty; a failure changes
   * nothing, a success stores the file and stamps the entry.
   */
  ghost predicate PutDone(flist0: map<string, Entry>, disk0: Disk, sig: string, name: string, size: int, sent: nat, now: int,
                          flist: map<string, Entry>, disk: Disk, ok: bool)
  {
    && (ok <==> sent >= size && |sig| >= 2 && name != "")
    && (!ok ==> flist == flist0 && disk == disk0)
    && (ok ==> disk == StoreFile(disk0, sig, name, if size < 0 then 0 else size, now))
    && (ok ==> flist == Stamped(flist0, sig, DirAt(disk, sig)))
  }

  /** The dispatch in run for one header: a header that does not decode ends the connection and changes nothing. */
  ghost predicate Served(port: int, header: string, sent: nat, now: int, before: Snapshot, after: Snapshot, ok: bool, reply: Reply)
  {
    match Decode(port, header)
    case Err(_) => !ok && reply == Silent && after == before
    case Ok(List) =>
      && ok && after == before
      && exists keys :: Listed(before.flist, keys) && reply == WithText(SizeHeader(|Lines(keys)|), Lines(keys))
    case Ok(Put(sig, name, size)) =>
      reply == Silent && PutDone(before.flist, before.disk, sig, name, size, sent, now, after.flist, after.disk, ok)
    case Ok(Get(sig, name)) =>
      GotFile(before.flist, before.disk, sig, name, now, after.flist, after.disk, ok, reply)
    case Ok(Clean) =>
      reply == Silent && Cleaned(before.flist, before.disk, after.flist, after.disk, ok)
  }

  /** Appending one served header to a trace keeps the headers served before it. */
  lemma TraceExtended(port: int, headers: seq<string>, sent: seq<nat>, times: seq<int>,
                      trace: seq<Snapshot>, replies: seq<Reply>, n: nat, after: Snapshot, ok: bool, reply: Reply)
    requires n < |headers| == |sent| == |times| && |replies| == n && |trace| == n + 1
    requires forall k :: 0 <= k < n ==> Served(port, headers[k], sent[k], times[k], trace[k], trace[k + 1], true, replies[k])
    requires Served(port, headers[n], sent[n], times[n], trace[n], after, ok, reply)
    ensures var t, r := trace + [after], replies + [reply];
      && (forall k :: 0 <= k < n ==> Served(port, headers[k], sent[k], times[k], t[k], t[k + 1], true, r[k]))
      && Served(port, headers[n], sent[n], times[n], t[n], t[n + 1], ok, r[n])
      && (ok ==> forall k :: 0 <= k < n + 1 ==> Served(port, headers[k], sent[k], times[k], t[k], t[k + 1], true, r[k]))
  {
    var t, r := trace + [after], replies + [reply];
    forall k | 0 <= k < n
      ensures Served(port, headers[k], sent[k], times[k], t[k], t[k + 1], true, r[k])
    {
      assert t[k] == trace[k] && t[k + 1] == trace[k + 1] && r[k] == replies[k];
    }
    assert t[n] == trace[n] && t[n + 1] == after && r[n] == reply;
    if ok {
      forall k | 0 <= k < n + 1
        ensures Served(port, headers[k], sent[k], times[k], t[k], t[k + 1], true, r[k])
      {
        if k == n {
          assert t[k] == trace[n] && t[k + 1] == after && r[k] == reply;
        } else {
          assert t[k] == trace[k] && t[k + 1] == trace[k + 1] && r[k] == replies[k];
        }
      }
    }
  }

  /**
   * A get with an empty name on an existing signature directory sends a size
   * header, then throws and changes nothing.
   */
  lemma GetOfDirectory(flist0: map<string, Entry>, disk0: Disk, sig: string, now: int,
                       flist: map<string, Entry>, disk: Disk, ok: bool, reply: Reply)
    requires |sig| >= 2 && HasDir(disk0, sig)
    requires GotFile(flist0, disk0, sig, "", now, flist, disk, ok, reply)
    ensures !ok && flist == flist0 && disk == disk0
    ensures SizeHeaderOnly(reply)
  {
  }

  /** A file put and then got back, with no clean between, is served with the uploaded size (0 for a negative one). */
  lemma PutThenGet(flist0: map<string, Entry>, disk0: Disk, sig: string, name: string, size: int, sent: nat, now: int,
                   flist1: map<string, Entry>, disk1: Disk, ok1: bool, later: int,
                   flist2: map<string, Entry>, disk2: Disk, ok2: bool, reply: Reply)
    requires sent >= size && |sig| >= 2 && name != ""
    requires PutDone(flist0, disk0, sig, name, size, sent, now, flist1, disk1, ok1)
    requires GotFile(flist1, disk1, sig, name, later, flist2, disk2, ok2, reply)
    ensures ok1 && ok2
    ensures var stored := if size < 0 then 0 else size;
      reply == WithData(SizeHeader(stored), stored) && flist2.Keys == flist0.Keys + {sig}
  {
  }

  // ---------------------------------------------------------------------------
  // The server state
  // ---------------------------------------------------------------------------

  /** The state both listeners share: the static flist, and CACHEDIR. */
  class Netcache {
    /** flist: signature -> {lastModified, total, name}. */
    var flist: map<string, Entry>
    /** The directories under CACHEDIR. */
    var disk: Disk

    constructor(disk0: Disk)
      ensures flist == map[] && disk == disk0
    {
      flist := map[];
      disk := disk0;
    }

    /** init_flist: index every second-level directory, empty ones included. */
    method InitFlist()
      modifies this`flist
      ensures IndexedFrom(disk, flist, AllDirs(disk), AllDirs(disk))
    {
      var dirs := disk;
      var index := map[];
      var rest := AllDirs(dirs);
      ghost var seen: set<(string, string)> := {};
      while rest != {}
        invariant rest !! seen && rest + seen == AllDirs(dirs)
        invariant IndexedFrom(dirs, index, seen, AllDirs(dirs))
        decreases |rest|
      {
        var p :| p in rest;
        var x, y := p.0, p.1;
        IndexStep(dirs, index, seen, AllDirs(dirs), x, y);
        var total := DirSize(dirs[x][y].files);
        index := index[y := Entry(dirs[x][y].mtime, total)];
        ScanMove(rest, seen, p);
        rest := rest - {p};
        seen := seen + {p};
      }
      flist := index;
    }

    /** lst: every key followed by a newline (the k <= size test always holds), after "<length>,". */
    method Lst() returns (reply: Reply, keys: seq<string>)
      ensures Listed(flist, keys)
      ensures reply == WithText(SizeHeader(|Lines(keys)|), Lines(keys))
    {
      keys := KeysInSomeOrder(flist);
      var size := |flist|;
      var b := "";
      var k := 0;
      var i := 0;
      while i < |keys|
        invariant 0 <= i <= |keys| == size && k == i
        invariant b == Lines(keys[..i])
      {
        LinesPrefixStep(keys, i);
        b := b + keys[i];
        if k <= size {
          k := k + 1;
          b := b + "\n";
        }
        i := i + 1;
      }
      assert keys[..|keys|] == keys;
      reply := WithText(SizeHeader(|b|), b);
    }

    /**
     * put: receive `size` bytes (the client sends `sent`), move them to
     * CACHEDIR/<sig[0..2]>/<sig>/<name>, then stamp the index entry.
     */
    method Put(sig: string, name: string, size: int, sent: nat, now: int) returns (ok: bool)
      modifies this`flist, this`disk
      ensures PutDone(old(flist), old(disk), sig, name, size, sent, now, flist, disk, ok)
    {
      if sent < size {
        // the stream ends before `size` bytes: the write of -1 bytes throws
        return false;
      }
      if |sig| < 2 {
        // args[1].substring(0, 2) throws
        return false;
      }
      if name == "" {
        // new File(parent, "") is the signature directory itself: the move fails and throws
        return false;
      }
      var stored: nat := if size < 0 then 0 else size;
      disk := StoreFile(disk, sig, name, stored, now);
      var parent := DirAt(disk, sig);
      var total := DirSize(parent.files);
      if sig in flist {
        flist := flist[sig := flist[sig].(timestamp := parent.mtime)];
      } else {
        flist := flist[sig := Entry(parent.mtime, total)];
      }
      ok := true;
    }

    /**
     * get: "<length>," (0 for a missing file, as File.length() gives), then
     * the file; opening a missing file throws. Afterwards the directory is
     * touched and the entry takes its new time; a signature missing from
     * flist throws there.
     */
    method Get(sig: string, name: string, now: int) returns (ok: bool, reply: Reply)
      modifies this`flist, this`disk
      ensures GotFile(old(flist), old(disk), sig, name, now, flist, disk, ok, reply)
    {
      if |sig| < 2 {
        // args[1].substring(0, 2) throws
        return false, Silent;
      }
      var fsize: nat := 0;
      var present := name != "" && HasDir(disk, sig) && name in DirAt(disk, sig).files;
      if present {
        fsize := DirAt(disk, sig).files[name];
      } else if name == "" && HasDir(disk, sig) {
        // f is the signature directory itself, whose length() the File API leaves unspecified
        fsize := DirStatSize;
      }
      reply := Header(SizeHeader(fsize));
      if !present {
        // new FileInputStream(f) throws FileNotFoundException
        return false, reply;
      }
      reply := WithData(SizeHeader(fsize), fsize);
      disk := Touch(disk, sig, now);
      if sig !in flist {
        // flist.get(...) is null
        return false, reply;
      }
      flist := flist[sig := flist[sig].(timestamp := DirAt(disk, sig).mtime)];
      ok := true;
    }

    /** clean: sort the entries by timestamp and evict from the oldest while the total exceeds the threshold. */
    method Clean() returns (ok: bool)
      modifies this`flist, this`disk
      ensures Cleaned(old(flist), old(disk), flist, disk, ok)
    {
      var total: nat := IndexSize(flist);
      var order := SortByTimestamp(flist);
      var index, dirs := flist, disk;
      ghost var flist0, disk0 := flist, disk;
      ghost var last := "";
      CleanStart(flist0, disk0, order);
      var cur := 0;
      while total > Threshold
        invariant CleanState(flist0, order, cur, index, total, last)
        invariant DirsRemoved(disk0, dirs, flist0.Keys - index.Keys)
        decreases |order| - cur
      {
        CleanStep(flist0, order, cur, index, total, last);
        var name := order[cur];
        if |name| < 2 {
          // name.substring(0, 2) throws
          CleanFailed(flist0, disk0, order, cur, index, dirs, total, last, name);
          flist, disk := index, dirs;
          return false;
        }
        RemoveAnother(disk0, dirs, flist0.Keys - index.Keys, name);
        DroppedOneMore(flist0, index, name);
        dirs := RemoveIfPresent(dirs, name);
        total := total - index[name].size;
        index := index - {name};
        last := name;
        cur := cur + 1;
      }
      CleanDone(flist0, disk0, order, cur, index, dirs, total, last);
      flist, disk := index, dirs;
      ok := true;
    }

    /** One pass of run's loop on a listener bound to `port`. */
    method Serve(port: int, header: string, sent: nat, now: int) returns (ok: bool, reply: Reply)
      modifies this`flist, this`disk
      ensures Served(port, header, sent, now, Snapshot(old(flist), old(disk)), Snapshot(flist, disk), ok, reply)
      ensures ok ==> Accepted(port, header)
    {
      var request := Decode(port, header);
      if request.Err? {
        return false, Silent;
      }
      reply := Silent;
      match request.value {
        case List =>
          var keys;
          reply, keys := Lst();
          ok := true;
        case Put(sig, name, size) =>
          ok := Put(sig, name, size, sent, now);
        case Get(sig, name) =>
          ok, reply := Get(sig, name, now);
        case Clean =>
          ok := Clean();
      }
    }

    /**
     * run: serve one connection's headers in order until one fails; `sent[i]`
     * is how many payload bytes follow header i, `times[i]` the clock then.
     */
    method Run(port: int, headers: seq<string>, sent: seq<nat>, times: seq<int>)
      returns (served: nat, replies: seq<Reply>, ghost trace: seq<Snapshot>)
      requires |sent| == |headers| && |times| == |headers|
      modifies this`flist, this`disk
      ensures served <= |headers|
      ensures |replies| == if served < |headers| then served + 1 else served
      ensures forall k :: 0 <= k < served ==> Accepted(port, headers[k])
      ensures forall k :: 0 <= k < |headers| && !Accepted(port, headers[k]) ==> served <= k
      ensures |trace| == |replies| + 1
      ensures trace[0] == Snapshot(old(flist), old(disk)) && trace[|replies|] == Snapshot(flist, disk)
      ensures forall k :: 0 <= k < served ==> Served(port, headers[k], sent[k], times[k], trace[k], trace[k + 1], true, replies[k])
      ensures served < |headers| ==>
        Served(port, headers[served], sent[served], times[served], trace[served], trace[served + 1], false, replies[served])
    {
      served := 0;
      replies := [];
      trace := [Snapshot(flist, disk)];
      while served < |headers|
        invariant served <= |headers|
        invariant |replies| == served && |trace| == served + 1
        invariant forall k :: 0 <= k < served ==> Accepted(port, headers[k])
        invariant trace[0] == Snapshot(old(flist), old(disk)) && trace[served] == Snapshot(flist, disk)
        invariant forall k :: 0 <= k < served ==> Served(port, headers[k], sent[k], times[k], trace[k], trace[k + 1], true, replies[k])
      {
        var ok, reply := Serve(port, headers[served], sent[served], times[served]);
        TraceExtended(port, headers, sent, times, trace, replies, served, Snapshot(flist, disk), ok, reply);
        replies := replies + [reply];
        trace := trace + [Snapshot(flist, disk)];
        if !ok {
          return;
        }
        AcceptedPrefix(port, headers, served);
        served := served + 1;
      }
    }
  }
}
