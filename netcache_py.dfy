/**
 * The Python cache server of waf's netcache playground. A client sends a
 * 128-byte header naming a command (GET, PUT, LST, CLN, RST, BYE) and its
 * comma-separated fields; the server keeps an index `flist` from task
 * signature to [timestamp, size] beside the files under CACHEDIR, and trims
 * the cache least recently used first once it holds MAX bytes or more.
 */
module NetcachePy {
  import opened Common
  import opened PyStrings
  import opened CacheStore

  const HeaderSize: nat := 128
  /** MAX: 50 GiB. */
  const Max: nat := 50 * 1024 * 1024 * 1024
  /** MAX * CLEANRATIO with CLEANRATIO = 0.85; the product is the whole number 45634027520. */
  const Threshold: nat := Max * 85 / 100

  // ---------------------------------------------------------------------------
  // Request headers
  // ---------------------------------------------------------------------------

  /** A character re_valid_query accepts: [a-zA-Z0-9_, ]. */
  predicate IsQueryChar(c: char)
  {
    ('a' <= c <= 'z') || ('A' <= c <= 'Z') || ('0' <= c <= '9') || c == '_' || c == ',' || c == ' '
  }

  /** re_valid_query.match on the stripped header: one or more whitelisted characters. */
  predicate ValidQuery(q: string)
  {
    q != [] && forall i :: 0 <= i < |q| ==> IsQueryChar(q[i])
  }

  /** The commands a header can carry; BYE is a failure that ends the connection. */
  datatype Request =
    | Get(sig: string, name: string)
    | Put(sig: string, name: string, size: int)
    | List
    | Clean
    | Reset

  /** Why process_command raised. */
  datatype Failure = InvalidQuery | Exit | MissingField | BadSize

  /** process_command's reading of a header: validation, split on ',', dispatch on the first field. */
  function ParseRequest(header: string): (r: Result<Request, Failure>)
    ensures r.Ok? ==> ValidQuery(Strip(header))
    ensures !ValidQuery(Strip(header)) ==> r == Err(InvalidQuery)
  {
    var q := Strip(header);
    if !ValidQuery(q) then Err(InvalidQuery) else Dispatch(Split(Strip(q), ','))
  }

  /** The dispatch on the first comma field; GET needs two more fields and PUT three, the last an integer. */
  function Dispatch(f: seq<string>): (r: Result<Request, Failure>)
    requires |f| >= 1
    ensures r == Err(Exit) <==> f[0] == "BYE"
  {
    if f[0] == "GET" then
      if |f| < 3 then Err(MissingField) else Ok(Get(f[1], f[2]))
    else if f[0] == "PUT" then
      if |f| < 4 then Err(MissingField)
      else
        match ParseInt(f[3])
        case None => Err(BadSize)
        case Some(n) => Ok(Put(f[1], f[2], n))
    else if f[0] == "LST" then Ok(List)
    else if f[0] == "CLN" then Ok(Clean)
    else if f[0] == "RST" then Ok(Reset)
    else if f[0] == "BYE" then Err(Exit)
    else Err(InvalidQuery)
  }

  /** The whitelist has no '-', so a PUT that passes validation never announces a negative size. */
  lemma ParsedSizeNonNegative(header: string)
    ensures var r := ParseRequest(header); r.Ok? && r.value.Put? ==> r.value.size >= 0
  {
    var q := Strip(header);
    if ValidQuery(q) {
      var f := Split(Strip(q), ',');
      assert ParseRequest(header) == Dispatch(f);
      FieldsHaveNoMinus(q);
      DispatchedSizeUnsigned(f);
    }
  }

  /** No comma field of a validated query holds a '-'. */
  lemma FieldsHaveNoMinus(q: string)
    requires ValidQuery(q)
    ensures forall i :: 0 <= i < |Split(Strip(q), ',')| ==> '-' !in Split(Strip(q), ',')[i]
  {
    var f := Split(Strip(q), ',');
    FieldCharsFromQuery(q);
    forall i, j | 0 <= i < |f| && 0 <= j < |f[i]|
      ensures f[i][j] != '-'
    {
      assert IsQueryChar(f[i][j]);
    }
  }

  /** Every character of every comma field of a validated query is whitelisted. */
  lemma FieldCharsFromQuery(q: string)
    requires ValidQuery(q)
    ensures forall i, j :: 0 <= i < |Split(Strip(q), ',')| && 0 <= j < |Split(Strip(q), ',')[i]| ==> IsQueryChar(Split(Strip(q), ',')[i][j])
  {
    var t := Strip(q);
    StripCharsFromInput(q);
    SplitCharsFromInput(t, ',');
  }

  lemma DispatchedSizeUnsigned(f: seq<string>)
    requires |f| >= 1 && forall i :: 0 <= i < |f| ==> '-' !in f[i]
    ensures var r := Dispatch(f); r.Ok? && r.value.Put? ==> r.value.size >= 0
  {
    if |f| >= 4 {
      ParseIntUnsigned(f[3]);
    }
  }

  /** A header process_command carries out rather than raising on. */
  ghost predicate Accepted(header: string)
  {
    ParseRequest(header).Ok?
  }

  lemma AcceptedPrefix(headers: seq<string>, n: nat)
    requires n < |headers|
    requires forall k :: 0 <= k < n ==> Accepted(headers[k])
    requires Accepted(headers[n])
    ensures forall k :: 0 <= k < n + 1 ==> Accepted(headers[k])
  {
  }

  /** Characters a signature or a file name may hold so that a header carries it unchanged. */
  predicate IsWordChar(c: char)
  {
    ('a' <= c <= 'z') || ('A' <= c <= 'Z') || ('0' <= c <= '9') || c == '_'
  }

  predicate IsWord(s: string)
  {
    forall i :: 0 <= i < |s| ==> IsWordChar(s[i])
  }

  lemma WordsAreQueryText(s: string)
    requires IsWord(s)
    ensures forall i :: 0 <= i < |s| ==> IsQueryChar(s[i]) && s[i] != ','
  {
  }

  /** The text of the header a client sends for a request. */
  function RequestText(r: Request): string
  {
    match r
    case Get(sig, name) => "GET," + sig + "," + name
    case Put(sig, name, size) => "PUT," + sig + "," + name + "," + IntToStr(size)
    case List => "LST"
    case Clean => "CLN"
    case Reset => "RST"
  }

  /** A request a header can carry: word fields, a size the whitelist admits, and room in 128 bytes. */
  predicate Sendable(r: Request)
  {
    && ((r.Get? || r.Put?) ==> IsWord(r.sig) && IsWord(r.name))
    && (r.Put? ==> r.size >= 0)
    && |RequestText(r)| <= HeaderSize
  }

  /** The 128-byte header for a request. */
  function RequestHeader(r: Request): (h: string)
    ensures Sendable(r) ==> |h| == HeaderSize
  {
    LJust(RequestText(r), HeaderSize)
  }

  /** A whitelisted text without whitespace at its ends reaches Dispatch whole, however it is padded. */
  lemma PaddedTextDispatched(t: string, n: nat)
    requires ValidQuery(t) && !IsSpace(t[0]) && !IsSpace(t[|t| - 1])
    ensures ParseRequest(LJust(t, n)) == Dispatch(Split(t, ','))
  {
    StripPadded(t, n);
    StripPadded(t, 0);
  }

  /** A word is a whitelisted, unpadded query that splits into itself. */
  lemma WordText(t: string)
    requires IsWord(t) && t != []
    ensures ValidQuery(t) && !IsSpace(t[0]) && !IsSpace(t[|t| - 1])
    ensures Split(t, ',') == [t]
  {
    WordsAreQueryText(t);
    assert !IsSpace(t[0]) && !IsSpace(t[|t| - 1]) by {
      assert IsWordChar(t[0]) && IsWordChar(t[|t| - 1]);
    }
    SplitWithoutSeparator(t, ',');
  }

  /** Three words joined by commas split back into them. */
  lemma ThreeWordsSplit(w: string, sig: string, name: string)
    requires IsWord(w) && IsWord(sig) && IsWord(name)
    ensures Split(w + [','] + (sig + [','] + name), ',') == [w, sig, name]
  {
    WordsAreQueryText(w);
    WordsAreQueryText(sig);
    WordsAreQueryText(name);
    SplitWithoutSeparator(name, ',');
    SplitHead(sig, ',', name);
    SplitHead(w, ',', sig + [','] + name);
  }

  /** Three words joined by commas, the first one not empty, make a whitelisted query with no space at its ends. */
  lemma ThreeWordsQuery(w: string, sig: string, name: string)
    requires IsWord(w) && IsWord(sig) && IsWord(name) && w != []
    ensures var t := w + [','] + (sig + [','] + name);
      ValidQuery(t) && !IsSpace(t[0]) && !IsSpace(t[|t| - 1])
  {
    var t := w + [','] + (sig + [','] + name);
    var k := |w| + 1 + |sig| + 1;
    forall i | 0 <= i < |t|
      ensures IsQueryChar(t[i]) && (t[i] == ' ' ==> false)
    {
      if i >= k {
        assert t[i] == name[i - k];
      } else if |w| + 1 <= i < |w| + 1 + |sig| {
        assert t[i] == sig[i - |w| - 1];
      } else if i < |w| {
        assert t[i] == w[i];
      }
    }
  }

  /** The GET header's text is whitelisted, unpadded, and splits into its three fields. */
  lemma GetTextSplit(sig: string, name: string, w: string)
    requires w == "GET" && IsWord(sig) && IsWord(name)
    ensures var t := RequestText(Get(sig, name));
      ValidQuery(t) && !IsSpace(t[0]) && !IsSpace(t[|t| - 1]) && Split(t, ',') == [w, sig, name]
  {
    assert RequestText(Get(sig, name)) == w + [','] + (sig + [','] + name);
    assert IsWord(w);
    ThreeWordsSplit(w, sig, name);
    ThreeWordsQuery(w, sig, name);
  }

  lemma GetRoundTrip(sig: string, name: string)
    requires Sendable(Get(sig, name))
    ensures ParseRequest(RequestHeader(Get(sig, name))) == Ok(Get(sig, name))
  {
    GetTextSplit(sig, name, "GET");
    PaddedTextDispatched(RequestText(Get(sig, name)), HeaderSize);
  }

  lemma PutRoundTrip(sig: string, name: string, size: int)
    requires Sendable(Put(sig, name, size))
    ensures ParseRequest(RequestHeader(Put(sig, name, size))) == Ok(Put(sig, name, size))
  {
    var t := RequestText(Put(sig, name, size));
    var digits := IntToStr(size);
    var y := name + [','] + digits;
    var x := sig + [','] + y;
    assert t == "PUT" + [','] + x;
    assert IsDigit(t[|t| - 1]);
    assert ValidQuery(t) by {
      forall i | 0 <= i < |t|
        ensures IsQueryChar(t[i])
      {
        if i >= |t| - |digits| {
          assert t[i] == digits[i - (|t| - |digits|)];
        }
      }
    }
    PaddedTextDispatched(t, HeaderSize);
    PutFieldsSplit(sig, name, digits);
    IntToStrRoundTrip(size);
    DispatchPut(sig, name, digits, size);
  }

  /** The PUT header's text splits into its four fields. */
  lemma PutFieldsSplit(sig: string, name: string, digits: string)
    requires IsWord(sig) && IsWord(name) && AllDigits(digits)
    ensures Split("PUT," + sig + "," + name + "," + digits, ',') == ["PUT", sig, name, digits]
  {
    WordsAreQueryText(sig);
    WordsAreQueryText(name);
    assert ',' !in digits by {
      forall i | 0 <= i < |digits|
        ensures digits[i] != ','
      {
        assert IsDigit(digits[i]);
      }
    }
    var y := name + [','] + digits;
    var x := sig + [','] + y;
    assert "PUT," + sig + "," + name + "," + digits == "PUT" + [','] + x;
    SplitWithoutSeparator(digits, ',');
    SplitHead(name, ',', digits);
    SplitHead(sig, ',', y);
    SplitHead("PUT", ',', x);
  }

  lemma DispatchPut(sig: string, name: string, digits: string, size: int)
    requires ParseInt(digits) == Some(size)
    ensures Dispatch(["PUT", sig, name, digits]) == Ok(Put(sig, name, size))
  {
  }

  /** A padded word reaches Dispatch as a single field. */
  lemma PaddedWordDispatched(t: string)
    requires IsWord(t) && t != []
    ensures ParseRequest(LJust(t, HeaderSize)) == Dispatch([t])
  {
    WordText(t);
    PaddedTextDispatched(t, HeaderSize);
  }

  /** A command without fields is its word, padded. */
  lemma CommandRoundTrip(r: Request, t: string)
    requires t == RequestText(r) && IsWord(t) && t != []
    requires Dispatch([t]) == Ok(r)
    ensures ParseRequest(RequestHeader(r)) == Ok(r)
  {
    PaddedWordDispatched(t);
  }

  /** The server reads back every request a client can send. */
  lemma RequestRoundTrip(r: Request)
    requires Sendable(r)
    ensures ParseRequest(RequestHeader(r)) == Ok(r)
  {
    match r {
      case Get(sig, name) => GetRoundTrip(sig, name);
      case Put(sig, name, size) => PutRoundTrip(sig, name, size);
      case List => CommandRoundTrip(r, "LST");
      case Clean => CommandRoundTrip(r, "CLN");
      case Reset => CommandRoundTrip(r, "RST");
    }
  }

  // ---------------------------------------------------------------------------
  // Reply headers
  // ---------------------------------------------------------------------------

  /** The LST reply header: "<length of the listing>," left-justified to 128 bytes. */
  function ListHeader(n: nat): string
  {
    LJust(IntToStr(n) + ",", HeaderSize)
  }

  /** The first comma field of the LST header gives back the listing's length. */
  lemma ListHeaderRoundTrip(n: nat)
    ensures ParseInt(Split(Strip(ListHeader(n)), ',')[0]) == Some(n)
  {
    var digits := IntToStr(n);
    var t := digits + ",";
    IntToStrUnpadded(n);
    StripPadded(t, HeaderSize);
    assert ',' !in digits by {
      forall i | 0 <= i < |digits|
        ensures digits[i] != ','
      {
        assert IsDigit(digits[i]);
      }
    }
    assert t == digits + [','] + "";
    SplitHead(digits, ',', "");
    IntToStrRoundTrip(n);
  }

  /** The GET reply header: str(size), -1 for a missing file, left-justified to 128 bytes. */
  function GetHeader(fsize: int): string
  {
    LJust(IntToStr(fsize), HeaderSize)
  }

  /** int() of the GET header gives back the size, -1 included. */
  lemma GetHeaderRoundTrip(fsize: int)
    ensures ParseInt(GetHeader(fsize)) == Some(fsize)
  {
    IntToStrUnpadded(fsize);
    StripPadded(IntToStr(fsize), HeaderSize);
    SignedRoundTrip(fsize);
  }

  /** The header a get-only or put-only handler sends before refusing. */
  const ErrorHeader: string := LJust("ERROR,", HeaderSize)

  /** The handler classes: req, req_only_get and req_only_put. */
  datatype Handler = Full | OnlyGet | OnlyPut

  // ---------------------------------------------------------------------------
  // The index and the disk
  // ---------------------------------------------------------------------------

  /** init_flist indexes CACHEDIR/x/y when x has two characters and y holds at least one file. */
  ghost function IndexableDirs(disk: Disk): (keep: set<(string, string)>)
    ensures keep <= AllDirs(disk)
  {
    set x, y | x in disk && y in disk[x] && |x| == 2 && disk[x][y].files != map[] :: (x, y)
  }

  /** The scan keeps a directory exactly when its shard name has two characters and it holds a file. */
  lemma IndexableMember(disk: Disk, x: string, y: string)
    requires x in disk && y in disk[x]
    ensures (x, y) in IndexableDirs(disk) <==> |x| == 2 && disk[x][y].files != map[]
  {
  }

  /** update's effect on the index: a known signature gets the new size, a new one [mtime, size]. */
  ghost function Updated(flist: map<string, Entry>, sig: string, dir: SigDir): map<string, Entry>
  {
    flist[sig := if sig in flist then flist[sig].(size := Sum(dir.files)) else DirEntry(dir)]
  }

  /**
   * make_clean_unsafe's outcome from (flist0, disk0): nothing happens below
   * MAX; otherwise the least recently used entries go, with their
   * directories, until the total is below MAX * CLEANRATIO, and no more go
   * than that needs; an rmtree of a missing directory stops it.
   */
  ghost predicate Cleaned(flist0: map<string, Entry>, disk0: Disk, flist: map<string, Entry>, disk: Disk, ok: bool)
  {
    && Evicted(flist0, flist)
    && DirsRemoved(disk0, disk, flist0.Keys - flist.Keys)
    && (TotalSize(flist0) < Max ==> ok && flist == flist0)
    && (ok && TotalSize(flist0) >= Max ==> TotalSize(flist) < Threshold)
    && (flist != flist0 ==> exists r :: r in flist0 && r !in flist && TotalSize(flist) + flist0[r].size >= Threshold)
    && (!ok ==> exists k :: IsOldest(flist, k) && !HasDir(disk, k))
  }

  /** The state of make_clean_unsafe's loop: `total` is what is left, `last` the entry evicted last. */
  ghost predicate Trimming(flist0: map<string, Entry>, disk0: Disk, index: map<string, Entry>, dirs: Disk, total: nat, last: string)
  {
    && total == TotalSize(index)
    && TotalSize(flist0) >= Max
    && Evicted(flist0, index)
    && DirsRemoved(disk0, dirs, flist0.Keys - index.Keys)
    && (index != flist0 ==> last in flist0 && last !in index && total + flist0[last].size >= Threshold)
  }

  /** Below MAX make_clean_unsafe leaves everything as it is. */
  lemma TrimNothing(flist0: map<string, Entry>, disk0: Disk)
    requires TotalSize(flist0) < Max
    ensures Cleaned(flist0, disk0, flist0, disk0, true)
  {
    assert flist0.Keys - flist0.Keys == {};
  }

  /** One eviction of the oldest entry keeps the loop's state. */
  lemma TrimStep(flist0: map<string, Entry>, disk0: Disk, index: map<string, Entry>, dirs: Disk, total: nat, last: string, k: string)
    requires Trimming(flist0, disk0, index, dirs, total, last)
    requires IsOldest(index, k) && HasDir(dirs, k) && total >= Threshold
    ensures index[k].size <= total
    ensures Trimming(flist0, disk0, index - {k}, RemoveDir(dirs, k), total - index[k].size, k)
  {
    TotalSizeRemove(index, k);
    RemoveOneMore(disk0, dirs, flist0.Keys - index.Keys, k);
    EvictOldest(flist0, index, k);
    DroppedOneMore(flist0, index, k);
  }

  /** The loop ends below the threshold. */
  lemma TrimDone(flist0: map<string, Entry>, disk0: Disk, index: map<string, Entry>, dirs: Disk, total: nat, last: string)
    requires Trimming(flist0, disk0, index, dirs, total, last) && total < Threshold
    ensures Cleaned(flist0, disk0, index, dirs, true)
  {
  }

  /** An rmtree of a missing directory stops the loop. */
  lemma TrimFailed(flist0: map<string, Entry>, disk0: Disk, index: map<string, Entry>, dirs: Disk, total: nat, last: string, k: string)
    requires Trimming(flist0, disk0, index, dirs, total, last)
    requires IsOldest(index, k) && !HasDir(dirs, k)
    ensures Cleaned(flist0, disk0, index, dirs, false)
  {
  }

  /** An entry that survives a trim still has its directory, untouched. */
  lemma CleanKeepsSurvivors(flist0: map<string, Entry>, disk0: Disk, flist: map<string, Entry>, disk: Disk, ok: bool, sig: string)
    requires Cleaned(flist0, disk0, flist, disk, ok)
    requires sig in flist && HasDir(disk0, sig)
    ensures HasDir(disk, sig) && DirAt(disk, sig) == DirAt(disk0, sig)
  {
    assert sig !in flist0.Keys - flist.Keys;
  }

  // ---------------------------------------------------------------------------
  // reset's shard names
  // ---------------------------------------------------------------------------

  /** The i-th character of CHARS = '0123456789abcdef'. */
  function HexDigit(d: nat): (c: char)
    requires d < 16
  {
    if d < 10 then (('0' as int) + d) as char else (('a' as int) + d - 10) as char
  }

  predicate IsHexChar(c: char)
  {
    ('0' <= c <= '9') || ('a' <= c <= 'f')
  }

  function HexValue(c: char): (d: nat)
    requires IsHexChar(c)
    ensures d < 16 && HexDigit(d) == c
  {
    if c <= '9' then (c as int) - ('0' as int) else (c as int) - ('a' as int) + 10
  }

  /** The shard x+y visited at step i of reset's double loop over CHARS. */
  function HexPair(i: nat): (s: string)
    requires i < 256
    ensures |s| == 2 && IsHexChar(s[0]) && IsHexChar(s[1])
    ensures HexValue(s[0]) * 16 + HexValue(s[1]) == i
  {
    [HexDigit(i / 16), HexDigit(i % 16)]
  }

  predicate IsHexPair(s: string)
  {
    |s| == 2 && IsHexChar(s[0]) && IsHexChar(s[1])
  }

  /** Where reset moves a shard before deleting it. */
  function RmName(s: string): string
  {
    s + "_rm"
  }

  predicate IsRmShard(s: string)
  {
    |s| == 5 && IsHexPair(s[..2]) && s[2..] == "_rm"
  }

  /** os.rename(x+y, x+y+'_rm') fails when the target exists and is not empty. */
  predicate RenameBlocked(disk: Disk, s: string)
  {
    RmName(s) in disk && disk[RmName(s)] != map[]
  }

  /** Shard s is where it was in disk0, holding the same directories. */
  predicate SameShard(disk0: Disk, disk: Disk, s: string)
  {
    (s in disk <==> s in disk0) && (s in disk ==> disk[s] == disk0[s])
  }

  /**
   * reset's effect on CACHEDIR: every x+y+'_rm' shard is gone, and so is
   * every x+y shard whose rename was not blocked; nothing else changes.
   */
  ghost predicate ResetDisk(disk0: Disk, disk: Disk)
  {
    forall s ::
      && (s in disk <==> s in disk0 && !IsRmShard(s) && !(IsHexPair(s) && !RenameBlocked(disk0, s)))
      && (s in disk ==> disk[s] == disk0[s])
  }

  /** Shard HexPair(k) after the rename loop has passed it. */
  predicate RenamedShard(disk0: Disk, disk: Disk, k: nat)
    requires k < 256
  {
    var s := HexPair(k);
    if s in disk0 && !RenameBlocked(disk0, s) then
      s !in disk && RmName(s) in disk && disk[RmName(s)] == disk0[s]
    else
      SameShard(disk0, disk, s) && SameShard(disk0, disk, RmName(s))
  }

  lemma HexPairInjective(i: nat, j: nat)
    requires i < 256 && j < 256 && i != j
    ensures HexPair(i) != HexPair(j) && RmName(HexPair(i)) != RmName(HexPair(j))
  {
    assert RmName(HexPair(i))[..2] == HexPair(i);
    assert RmName(HexPair(j))[..2] == HexPair(j);
  }

  /** Every two-character hex shard is visited, at the step its value names. */
  lemma HexPairOnto(s: string)
    requires IsHexPair(s)
    ensures HexValue(s[0]) * 16 + HexValue(s[1]) < 256
    ensures HexPair(HexValue(s[0]) * 16 + HexValue(s[1])) == s
  {
    var i := HexValue(s[0]) * 16 + HexValue(s[1]);
    assert i / 16 == HexValue(s[0]) && i % 16 == HexValue(s[1]);
  }

  /** Every x+y+'_rm' shard is the rename target of a visited shard. */
  lemma RmShardOnto(s: string)
    requires IsRmShard(s)
    ensures IsHexPair(s[..2]) && s == RmName(s[..2])
  {
  }

  /** rename(x+y, x+y+'_rm') as reset attempts it. */
  ghost function RenameOne(disk: Disk, s: string): Disk
  {
    if s in disk && !RenameBlocked(disk, s) then disk[RmName(s) := disk[s]] - {s} else disk
  }

  /** The disk after the rename loop has visited the shards HexPair(0) .. HexPair(i - 1). */
  ghost predicate RenamedUpTo(disk0: Disk, disk: Disk, i: nat)
    requires i <= 256
  {
    && (forall k :: 0 <= k < i ==> RenamedShard(disk0, disk, k))
    && (forall k :: i <= k < 256 ==> SameShard(disk0, disk, HexPair(k)) && SameShard(disk0, disk, RmName(HexPair(k))))
    && (forall s :: !IsHexPair(s) && !IsRmShard(s) ==> SameShard(disk0, disk, s))
  }

  /** One rename touches only its own shard and its '_rm' target. */
  lemma RenameStep(disk0: Disk, disk: Disk, i: nat)
    requires i < 256 && RenamedUpTo(disk0, disk, i)
    ensures RenamedUpTo(disk0, RenameOne(disk, HexPair(i)), i + 1)
  {
    var s := HexPair(i);
    var after := RenameOne(disk, s);
    forall t | t != s && t != RmName(s)
      ensures SameShard(disk, after, t)
    {
    }
    forall k | 0 <= k < 256 && k != i
      ensures HexPair(k) != s && RmName(HexPair(k)) != RmName(s)
      ensures HexPair(k) != RmName(s) && RmName(HexPair(k)) != s
    {
      HexPairInjective(k, i);
    }
    forall t | !IsHexPair(t) && !IsRmShard(t)
      ensures t != s && t != RmName(s)
    {
      assert RmName(s)[..2] == s;
    }
    forall k | 0 <= k < i
      ensures RenamedShard(disk0, after, k)
    {
      assert RenamedShard(disk0, disk, k);
      assert SameShard(disk, after, HexPair(k)) && SameShard(disk, after, RmName(HexPair(k)));
    }
    assert RenamedShard(disk0, after, i);
  }

  /** The rmtree loop's deletions so far: the '_rm' names of HexPair(0) .. HexPair(i - 1). */
  function RmShardsBelow(i: nat): set<string>
    requires i <= 256
  {
    set k | 0 <= k < i :: RmName(HexPair(k))
  }

  /** One more rmtree adds its '_rm' shard to those deleted. */
  lemma RmShardsStep(i: nat)
    requires i < 256
    ensures RmShardsBelow(i + 1) == RmShardsBelow(i) + {RmName(HexPair(i))}
  {
  }

  /** A hex shard ends up where its rename left it. */
  lemma ResetHexShard(disk0: Disk, renamed: Disk, s: string)
    requires RenamedUpTo(disk0, renamed, 256) && IsHexPair(s)
    ensures s in renamed - RmShardsBelow(256) <==> s in disk0 && RenameBlocked(disk0, s)
    ensures s in renamed ==> renamed[s] == disk0[s]
  {
    HexPairOnto(s);
    var k := HexValue(s[0]) * 16 + HexValue(s[1]);
    assert RenamedShard(disk0, renamed, k);
    assert s !in RmShardsBelow(256);
  }

  /** Every '_rm' shard is deleted by the rmtree loop. */
  lemma ResetRmShard(s: string)
    requires IsRmShard(s)
    ensures s in RmShardsBelow(256)
  {
    RmShardOnto(s);
    HexPairOnto(s[..2]);
    var k := HexValue(s[0]) * 16 + HexValue(s[1]);
    assert s == RmName(HexPair(k));
  }

  /** Any other name is neither renamed nor deleted. */
  lemma ResetOtherShard(disk0: Disk, renamed: Disk, s: string)
    requires RenamedUpTo(disk0, renamed, 256) && !IsHexPair(s) && !IsRmShard(s)
    ensures s !in RmShardsBelow(256) && SameShard(disk0, renamed, s)
  {
    if s in RmShardsBelow(256) {
      assert false;
    }
  }

  /** After both loops the disk is ResetDisk of where it started. */
  lemma ResetOutcome(disk0: Disk, renamed: Disk, disk: Disk)
    requires RenamedUpTo(disk0, renamed, 256)
    requires disk == renamed - RmShardsBelow(256)
    ensures ResetDisk(disk0, disk)
  {
    forall s
      ensures (s in disk <==> s in disk0 && !IsRmShard(s) && !(IsHexPair(s) && !RenameBlocked(disk0, s)))
      ensures (s in disk ==> disk[s] == disk0[s])
    {
      if IsHexPair(s) {
        ResetHexShard(disk0, renamed, s);
        assert !IsRmShard(s);
      } else if IsRmShard(s) {
        ResetRmShard(s);
      } else {
        ResetOtherShard(disk0, renamed, s);
      }
    }
  }

  // ---------------------------------------------------------------------------
  // What one command does, from the state before it to the state after it
  // ---------------------------------------------------------------------------

  /** The keys of flist, each once, in some order. */
  ghost predicate Listed(flist: map<string, Entry>, keys: seq<string>)
  {
    && |keys| == |flist|
    && (forall k :: k in flist <==> k in keys)
    && (forall a, b :: 0 <= a < b < |keys| ==> keys[a] != keys[b])
  }

  /** make_clean: nothing while another thread holds the lock, otherwise make_clean_unsafe. */
  ghost predicate CleanDone(lock: bool, flist0: map<string, Entry>, disk0: Disk, flist: map<string, Entry>, disk: Disk, ok: bool)
  {
    && (lock ==> ok && flist == flist0 && disk == disk0)
    && (!lock ==> Cleaned(flist0, disk0, flist, disk, ok))
  }

  /**
   * get_file: a miss answers -1 and changes nothing; a hit touches the
   * directory, stamps the entry with the new time and answers the size and
   * the file; a hit on a signature missing from flist raises before any reply.
   * An empty name names the signature directory itself: stat finds it, so it
   * is touched and stamped like a hit, its reported size is sent, and opening
   * it for reading then raises.
   */
  ghost predicate GotFile(flist0: map<string, Entry>, disk0: Disk, sig: string, name: string, now: int,
                          flist: map<string, Entry>, disk: Disk, ok: bool, reply: Reply)
  {
    var dirHit := name == "" && HasDir(disk0, sig);
    var found := name != "" && HasDir(disk0, sig) && name in DirAt(disk0, sig).files;
    && (ok <==> !dirHit && (!found || sig in flist0))
    && (!found && !dirHit ==> flist == flist0 && disk == disk0 && reply == Header(GetHeader(-1)))
    && (found || dirHit ==> disk == Touch(disk0, sig, now))
    && ((found || dirHit) && sig in flist0 ==> flist == flist0[sig := flist0[sig].(timestamp := now)])
    && ((found || dirHit) && sig !in flist0 ==> flist == flist0 && reply == Silent)
    && (found && sig in flist0 ==>
          var size := DirAt(disk0, sig).files[name];
          reply == WithData(GetHeader(size), size))
    && (dirHit && sig in flist0 ==> SizeHeaderOnly(reply))
  }

  /** A GET header carrying some size, with no data after it. */
  ghost predicate SizeHeaderOnly(reply: Reply)
  {
    exists n: nat :: reply == Header(GetHeader(n))
  }

  /**
   * put_file: a connection closed before `size` bytes raises and changes
   * nothing. Otherwise makedirs runs, the upload is moved in (a move onto the
   * directory itself, for an empty name, fails silently), the entry is
   * re-measured, and make_clean runs.
   */
  ghost predicate PutDone(flist0: map<string, Entry>, disk0: Disk, lock: bool, sig: string, name: string, size: int, sent: nat, now: int,
                          flist: map<string, Entry>, disk: Disk, ok: bool)
  {
    && (sent < size ==> !ok && flist == flist0 && disk == disk0)
    && (sent >= size ==>
          var disk1 := if name == "" then MakeDir(disk0, sig, now)
                       else StoreFile(disk0, sig, name, if size < 0 then 0 else size, now);
          var flist1 := Updated(flist0, sig, DirAt(disk1, sig));
          CleanDone(lock, flist1, disk1, flist, disk, ok))
  }

  /** The dispatch in process_command for a valid request, with the get-only and put-only handlers' refusals. */
  ghost predicate RanCommand(handler: Handler, request: Request, sent: nat, now: int, lock: bool,
                             before: Snapshot, after: Snapshot, ok: bool, reply: Reply)
  {
    match request
    case Get(sig, name) =>
      if handler == OnlyPut then !ok && reply == Header(ErrorHeader) && after == before
      else GotFile(before.flist, before.disk, sig, name, now, after.flist, after.disk, ok, reply)
    case Put(sig, name, size) =>
      if handler == OnlyGet then !ok && reply == Header(ErrorHeader) && after == before
      else reply == Silent && PutDone(before.flist, before.disk, lock, sig, name, size, sent, now, after.flist, after.disk, ok)
    case List =>
      && ok && after == before
      && exists keys :: Listed(before.flist, keys) && reply == WithText(ListHeader(|Join(keys, "\n")|), Join(keys, "\n"))
    case Clean =>
      reply == Silent && CleanDone(lock, before.flist, before.disk, after.flist, after.disk, ok)
    case Reset =>
      ok && reply == Silent && after.flist == map[] && ResetDisk(before.disk, after.disk)
  }

  /**
   * A header the get-only or put-only handler refuses: a whitelisted PUT or
   * GET, whatever fields follow it, since the overriding put_file and
   * get_file refuse before they read any field.
   */
  predicate Refuses(handler: Handler, header: string)
  {
    var q := Strip(header);
    ValidQuery(q) && Forbids(handler, Split(Strip(q), ',')[0])
  }

  /** The command a get-only handler forbids is PUT; the one a put-only handler forbids is GET. */
  predicate Forbids(handler: Handler, command: string)
  {
    (handler == OnlyGet && command == "PUT") || (handler == OnlyPut && command == "GET")
  }

  /**
   * process_command: an invalid header, or a command with missing or
   * malformed fields, stops the connection and changes nothing; it answers
   * ERROR when the handler refuses the command, since the refusal comes
   * before any field is read, and nothing otherwise. A valid request runs,
   * a refused one answering ERROR there too.
   */
  ghost predicate Processed(handler: Handler, header: string, sent: nat, now: int, lock: bool,
                            before: Snapshot, after: Snapshot, ok: bool, reply: Reply)
  {
    match ParseRequest(header)
    case Err(_) => !ok && after == before && reply == (if Refuses(handler, header) then Header(ErrorHeader) else Silent)
    case Ok(request) => RanCommand(handler, request, sent, now, lock, before, after, ok, reply)
  }

  /** A refused header that reads as a request is a PUT to a get-only handler or a GET to a put-only one. */
  lemma RefusedRequest(handler: Handler, header: string)
    requires Refuses(handler, header) && ParseRequest(header).Ok?
    ensures var r := ParseRequest(header).value;
      (handler == OnlyGet && r.Put?) || (handler == OnlyPut && r.Get?)
  {
    var f := Split(Strip(Strip(header)), ',');
    assert ParseRequest(header) == Dispatch(f);
  }

  /**
   * The refusal comes before the fields are read: "PUT,sig" to a get-only
   * handler, or "GET,sig" to a put-only one, lacks fields the full handler
   * fails on, yet is answered with the ERROR header.
   */
  lemma RefusedBeforeFields(handler: Handler, w: string, sig: string, n: nat, header: string, sent: nat, now: int, lock: bool,
                            before: Snapshot, after: Snapshot, ok: bool, reply: Reply)
    requires (handler == OnlyGet && w == "PUT") || (handler == OnlyPut && w == "GET")
    requires IsWord(sig) && header == LJust(w + [','] + sig, n)
    requires Processed(handler, header, sent, now, lock, before, after, ok, reply)
    ensures ParseRequest(header) == Err(MissingField)
    ensures !ok && reply == Header(ErrorHeader) && after == before
  {
    ShortHeaderRead(handler, w, sig, n, header);
  }

  /** "PUT,sig" and "GET,sig" are whitelisted, refused by the matching handler, and short of fields. */
  lemma ShortHeaderRead(handler: Handler, w: string, sig: string, n: nat, header: string)
    requires (handler == OnlyGet && w == "PUT") || (handler == OnlyPut && w == "GET")
    requires IsWord(sig) && header == LJust(w + [','] + sig, n)
    ensures Refuses(handler, header)
    ensures ParseRequest(header) == Err(MissingField)
  {
    var t := w + [','] + sig;
    ShortText(w, sig);
    assert Strip(Strip(header)) == t by {
      StripPadded(t, n);
      assert LJust(t, 0) == t;
      StripPadded(t, 0);
    }
    assert Split(Strip(Strip(header)), ',')[0] == w;
    assert ParseRequest(header) == Dispatch([w] + [sig]) by {
      PaddedTextDispatched(t, n);
    }
  }

  /** The text "w,sig" for a three-letter command w is whitelisted, unpadded, and splits into two fields. */
  lemma ShortText(w: string, sig: string)
    requires (w == "PUT" || w == "GET") && IsWord(sig)
    ensures var t := w + [','] + sig;
      ValidQuery(t) && !IsSpace(t[0]) && !IsSpace(t[|t| - 1]) && Split(t, ',') == [w] + [sig]
  {
    var t := w + [','] + sig;
    assert |w| == 3 && ',' !in w && ' ' !in w;
    WordsAreQueryText(sig);
    forall i | 0 <= i < |t|
      ensures IsQueryChar(t[i]) && t[i] != ' '
    {
      if i > |w| {
        assert t[i] == sig[i - |w| - 1];
      } else if i < |w| {
        assert t[i] == w[i];
      }
    }
    SplitWithoutSeparator(sig, ',');
    SplitHead(w, ',', sig);
  }

  /** Appending one served command to a trace keeps the commands served before it. */
  lemma TraceExtended(handler: Handler, headers: seq<string>, sent: seq<nat>, times: seq<int>, lock: bool,
                      trace: seq<Snapshot>, replies: seq<Reply>, n: nat, after: Snapshot, ok: bool, reply: Reply)
    requires n < |headers| == |sent| == |times| && |replies| == n && |trace| == n + 1
    requires forall k :: 0 <= k < n ==>
      Processed(handler, headers[k], sent[k], times[k], lock, trace[k], trace[k + 1], true, replies[k])
    requires Processed(handler, headers[n], sent[n], times[n], lock, trace[n], after, ok, reply)
    ensures var t, r := trace + [after], replies + [reply];
      && (forall k :: 0 <= k < n ==> Processed(handler, headers[k], sent[k], times[k], lock, t[k], t[k + 1], true, r[k]))
      && Processed(handler, headers[n], sent[n], times[n], lock, t[n], t[n + 1], ok, r[n])
      && (ok ==> forall k :: 0 <= k < n + 1 ==> Processed(handler, headers[k], sent[k], times[k], lock, t[k], t[k + 1], true, r[k]))
  {
    var t, r := trace + [after], replies + [reply];
    forall k | 0 <= k < n
      ensures Processed(handler, headers[k], sent[k], times[k], lock, t[k], t[k + 1], true, r[k])
    {
      assert t[k] == trace[k] && t[k + 1] == trace[k + 1] && r[k] == replies[k];
    }
    assert t[n] == trace[n] && t[n + 1] == after && r[n] == reply;
    if ok {
      forall k | 0 <= k < n + 1
        ensures Processed(handler, headers[k], sent[k], times[k], lock, t[k], t[k + 1], true, r[k])
      {
        if k == n {
          assert t[k] == trace[n] && t[k + 1] == after && r[k] == reply;
        } else {
          assert t[k] == trace[k] && t[k + 1] == trace[k + 1] && r[k] == replies[k];
        }
      }
    }
  }

  /**
   * A file put while no eviction can run is then served back by a get: the
   * get succeeds and answers the uploaded size (0 for a negative one).
   */
  lemma PutThenGet(flist0: map<string, Entry>, disk0: Disk, sig: string, name: string, size: int, sent: nat, now: int,
                   flist1: map<string, Entry>, disk1: Disk, ok1: bool, later: int,
                   flist2: map<string, Entry>, disk2: Disk, ok2: bool, reply: Reply)
    requires sent >= size && name != ""
    requires PutDone(flist0, disk0, true, sig, name, size, sent, now, flist1, disk1, ok1)
    requires GotFile(flist1, disk1, sig, name, later, flist2, disk2, ok2, reply)
    ensures ok1 && ok2
    ensures var stored := if size < 0 then 0 else size;
      reply == WithData(GetHeader(stored), stored) && flist2.Keys == flist0.Keys + {sig}
  {
  }

  /**
   * A put with an empty name only makes the signature directory; a get with
   * an empty name then finds that directory, touches and stamps it, sends a
   * size header and ends the connection.
   */
  lemma PutThenGetDirectory(flist0: map<string, Entry>, disk0: Disk, sig: string, size: int, sent: nat, now: int,
                            flist1: map<string, Entry>, disk1: Disk, ok1: bool, later: int,
                            flist2: map<string, Entry>, disk2: Disk, ok2: bool, reply: Reply)
    requires sent >= size
    requires PutDone(flist0, disk0, true, sig, "", size, sent, now, flist1, disk1, ok1)
    requires GotFile(flist1, disk1, sig, "", later, flist2, disk2, ok2, reply)
    ensures ok1 && !ok2
    ensures HasDir(disk2, sig) && DirAt(disk2, sig).mtime == later
    ensures sig in flist2 && flist2[sig].timestamp == later
    ensures SizeHeaderOnly(reply)
  {
  }

  // ---------------------------------------------------------------------------
  // The server state
  // ---------------------------------------------------------------------------

  class Server {
    /** flist: signature -> [timestamp, size]. */
    var flist: map<string, Entry>
    /** The directories under CACHEDIR. */
    var disk: Disk
    /** The eviction lock is held by another connection's thread. */
    var lockHeld: bool

    constructor(disk0: Disk)
      ensures flist == map[] && disk == disk0 && !lockHeld
    {
      flist := map[];
      disk := disk0;
      lockHeld := false;
    }

    /** init_flist: rebuild the index from the two-character shards under CACHEDIR. */
    method InitFlist()
      modifies this`flist
      ensures IndexedFrom(disk, flist, AllDirs(disk), IndexableDirs(disk))
    {
      var dirs := disk;
      var index := map[];
      var rest := AllDirs(dirs);
      ghost var seen: set<(string, string)> := {};
      while rest != {}
        invariant rest !! seen && rest + seen == AllDirs(dirs)
        invariant IndexedFrom(dirs, index, seen, IndexableDirs(dirs))
        decreases |rest|
      {
        var p :| p in rest;
        var x, y := p.0, p.1;
        IndexStep(dirs, index, seen, IndexableDirs(dirs), x, y);
        IndexableMember(dirs, x, y);
        if |x| == 2 && dirs[x][y].files != map[] {
          var size := DirSize(dirs[x][y].files);
          index := index[y := Entry(dirs[x][y].mtime, size)];
        }
        ScanMove(rest, seen, p);
        rest := rest - {p};
        seen := seen + {p};
      }
      flist := index;
    }

    /** make_clean_unsafe: trim the cache, oldest entries first, once it reaches MAX. */
    method MakeCleanUnsafe() returns (ok: bool)
      modifies this`flist, this`disk
      ensures Cleaned(old(flist), old(disk), flist, disk, ok)
    {
      ok := true;
      var total: nat := IndexSize(flist);
      if total < Max {
        TrimNothing(flist, disk);
        return;
      }
      var index, dirs := flist, disk;
      ghost var flist0, disk0 := flist, disk;
      ghost var last := "";
      while total >= Threshold
        invariant Trimming(flist0, disk0, index, dirs, total, last)
        decreases |index|
      {
        EmptyTotal();
        var k := Oldest(index);
        if !HasDir(dirs, k) {
          // shutil.rmtree raises; the exception leaves make_clean
          TrimFailed(flist0, disk0, index, dirs, total, last, k);
          flist, disk := index, dirs;
          return false;
        }
        TrimStep(flist0, disk0, index, dirs, total, last, k);
        dirs := RemoveDir(dirs, k);
        total := total - index[k].size;
        last := k;
        index := index - {k};
      }
      TrimDone(flist0, disk0, index, dirs, total, last);
      flist, disk := index, dirs;
    }

    /** make_clean: trim only when the lock is free, and release it afterwards. */
    method MakeClean() returns (ok: bool)
      modifies this
      ensures lockHeld == old(lockHeld)
      ensures CleanDone(old(lockHeld), old(flist), old(disk), flist, disk, ok)
    {
      ok := true;
      if !lockHeld {
        lockHeld := true;
        ok := MakeCleanUnsafe();
        lockHeld := false;
      }
    }

    /** update: re-measure a signature's directory; a listdir of a missing one raises. */
    method Update(sig: string) returns (ok: bool)
      modifies this`flist
      ensures ok <==> HasDir(disk, sig)
      ensures ok ==> flist == Updated(old(flist), sig, DirAt(disk, sig))
      ensures !ok ==> flist == old(flist)
    {
      if !HasDir(disk, sig) {
        return false;
      }
      var dir := DirAt(disk, sig);
      var cnt := DirSize(dir.files);
      if sig in flist {
        flist := flist[sig := flist[sig].(size := cnt)];
      } else {
        flist := flist[sig := Entry(dir.mtime, cnt)];
      }
      ok := true;
    }

    /** reset: empty the index, then move every hex shard aside and delete the moved ones. */
    method Reset()
      modifies this`flist, this`disk
      ensures flist == map[]
      ensures ResetDisk(old(disk), disk)
    {
      flist := map[];
      var dirs := disk;
      ghost var disk0 := disk;
      for i := 0 to 256
        invariant RenamedUpTo(disk0, dirs, i)
        invariant flist == map[] && disk == disk0
      {
        var s := HexPair(i);
        var target := RmName(s);
        RenameStep(disk0, dirs, i);
        if s in dirs && !(target in dirs && dirs[target] != map[]) {
          // os.rename(x+y, x+y+'_rm'); a failed rename is ignored
          dirs := dirs[target := dirs[s]] - {s};
        }
      }
      ghost var renamed := dirs;
      for i := 0 to 256
        invariant dirs == renamed - RmShardsBelow(i)
        invariant flist == map[] && disk == disk0
      {
        // shutil.rmtree(x+y+'_rm'); a missing directory is ignored
        dirs := dirs - {RmName(HexPair(i))};
        RmShardsStep(i);
      }
      ResetOutcome(disk0, renamed, dirs);
      disk := dirs;
    }

    /** lst_file: the keys in some order, joined by newlines, after their length. */
    method ListFiles() returns (reply: Reply, keys: seq<string>)
      ensures Listed(flist, keys)
      ensures reply == WithText(ListHeader(|Join(keys, "\n")|), Join(keys, "\n"))
    {
      keys := KeysInSomeOrder(flist);
      var response := Join(keys, "\n");
      reply := WithText(ListHeader(|response|), response);
    }

    /**
     * get_file: the size (or -1) in the header, then the file. A hit touches
     * the directory and stamps the entry with the new time; a hit on a
     * signature missing from flist raises before any reply.
     */
    method GetFile(sig: string, name: string, now: int) returns (ok: bool, reply: Reply)
      modifies this`flist, this`disk
      ensures GotFile(old(flist), old(disk), sig, name, now, flist, disk, ok, reply)
    {
      var fsize: int := -1;
      if HasDir(disk, sig) && (name == "" || name in DirAt(disk, sig).files) {
        // an empty name joins to the signature directory itself
        fsize := if name == "" then DirStatSize else DirAt(disk, sig).files[name];
        disk := Touch(disk, sig, now);
        if sig !in flist {
          // flist[query[0]][0] raises KeyError
          return false, Silent;
        }
        flist := flist[sig := flist[sig].(timestamp := now)];
      }
      var header := GetHeader(fsize);
      if fsize < 0 {
        reply := Header(header);
      } else if name == "" {
        // open(tmp, 'rb') on a directory raises
        return false, Header(header);
      } else {
        reply := WithData(header, fsize);
      }
      ok := true;
    }

    /**
     * put_file: receive `size` bytes (the client sends `sent`), move them to
     * CACHEDIR/<shard>/<sig>/<name>, update the index, then trim.
     */
    method PutFile(sig: string, name: string, size: int, sent: nat, now: int) returns (ok: bool)
      modifies this
      ensures lockHeld == old(lockHeld)
      ensures PutDone(old(flist), old(disk), old(lockHeld), sig, name, size, sent, now, flist, disk, ok)
    {
      if sent < size {
        // the connection closes before `size` bytes arrive
        return false;
      }
      var stored: nat := if size < 0 then 0 else size;
      if name == "" {
        // the move onto the directory itself fails and the error is swallowed
        disk := MakeDir(disk, sig, now);
      } else {
        disk := StoreFile(disk, sig, name, stored, now);
      }
      var updated := Update(sig);
      ok := MakeClean();
    }

    /** process_command: validate the header, refuse a forbidden command, then read its fields and run it. */
    method ProcessCommand(handler: Handler, header: string, sent: nat, now: int) returns (ok: bool, reply: Reply)
      modifies this
      ensures lockHeld == old(lockHeld)
      ensures Processed(handler, header, sent, now, old(lockHeld), Snapshot(old(flist), old(disk)), Snapshot(flist, disk), ok, reply)
      ensures ok ==> Accepted(header)
    {
      if Refuses(handler, header) {
        if ParseRequest(header).Ok? {
          RefusedRequest(handler, header);
        }
        return false, Header(ErrorHeader);
      }
      var request := ParseRequest(header);
      if request.Err? {
        return false, Silent;
      }
      ok, reply := Run(handler, request.value, sent, now);
    }

    /** The dispatch in process_command, and the get-only and put-only handlers' refusals. */
    method Run(handler: Handler, request: Request, sent: nat, now: int) returns (ok: bool, reply: Reply)
      modifies this
      ensures lockHeld == old(lockHeld)
      ensures RanCommand(handler, request, sent, now, old(lockHeld), Snapshot(old(flist), old(disk)), Snapshot(flist, disk), ok, reply)
    {
      reply := Silent;
      match request {
        case Get(sig, name) =>
          if handler == OnlyPut {
            reply := Header(ErrorHeader);
            ok := false;
          } else {
            ok, reply := GetFile(sig, name, now);
          }
        case Put(sig, name, size) =>
          if handler == OnlyGet {
            reply := Header(ErrorHeader);
            ok := false;
          } else {
            ok := PutFile(sig, name, size, sent, now);
          }
        case List =>
          var keys;
          reply, keys := ListFiles();
          ok := true;
        case Clean =>
          ok := MakeClean();
        case Reset =>
          Reset();
          ok := true;
      }
    }

    /**
     * handle: serve the headers of one connection in order until a command
     * raises; `sent[i]` is how many payload bytes follow header i, `times[i]`
     * the clock when it is served.
     */
    method Handle(handler: Handler, headers: seq<string>, sent: seq<nat>, times: seq<int>)
      returns (served: nat, replies: seq<Reply>, ghost trace: seq<Snapshot>)
      requires |sent| == |headers| && |times| == |headers|
      modifies this
      ensures served <= |headers|
      ensures |replies| == if served < |headers| then served + 1 else served
      ensures forall k :: 0 <= k < served ==> Accepted(headers[k])
      ensures forall k :: 0 <= k < |headers| && !Accepted(headers[k]) ==> served <= k
      ensures lockHeld == old(lockHeld)
      ensures |trace| == |replies| + 1
      ensures trace[0] == Snapshot(old(flist), old(disk)) && trace[|replies|] == Snapshot(flist, disk)
      ensures forall k :: 0 <= k < served ==>
        Processed(handler, headers[k], sent[k], times[k], lockHeld, trace[k], trace[k + 1], true, replies[k])
      ensures served < |headers| ==>
        Processed(handler, headers[served], sent[served], times[served], lockHeld, trace[served], trace[served + 1], false, replies[served])
    {
      ghost var lock := lockHeld;
      served := 0;
      replies := [];
      trace := [Snapshot(flist, disk)];
      while served < |headers|
        invariant served <= |headers|
        invariant |replies| == served && |trace| == served + 1
        invariant forall k :: 0 <= k < served ==> Accepted(headers[k])
        invariant lockHeld == lock
        invariant trace[0] == Snapshot(old(flist), old(disk)) && trace[served] == Snapshot(flist, disk)
        invariant forall k :: 0 <= k < served ==>
          Processed(handler, headers[k], sent[k], times[k], lock, trace[k], trace[k + 1], true, replies[k])
      {
        var ok, reply := ProcessCommand(handler, headers[served], sent[served], times[served]);
        TraceExtended(handler, headers, sent, times, lock, trace, replies, served, Snapshot(flist, disk), ok, reply);
        replies := replies + [reply];
        trace := trace + [Snapshot(flist, disk)];
        if !ok {
          return;
        }
        AcceptedPrefix(headers, served);
        served := served + 1;
      }
    }
  }
}
