/** Permission vocabulary, binary feature encoder, static risk heuristic and
    reputation stub of the prediction service (utils.py). */
module Utils {
  import opened Wrappers

  // ---------------------------------------------------------------------------
  // Permission vocabulary
  // ---------------------------------------------------------------------------

  /** The curated, ordered list of human-readable permission descriptions;
      "(D)" marks a dangerous permission, "(S)" a signature-level one.
      The tenth entry is two descriptions run together: the list has no comma
      between them, so the two adjacent literals form one string and the list
      holds 45 entries, not 46. The list is written here in three runs of 15
      entries, concatenated in the source's order. */
  const Entries1To15: seq<string> := [
    "Your location : fine (GPS) location (D)",
    "Your location : coarse (network-based) location (D)",
    "Hardware controls : take pictures and videos (D)",
    "Hardware controls : record audio (D)",
    "Your personal information : read contact data (D)",
    "Your personal information : write contact data (D)",
    "Network communication : full Internet access (D)",
    "Services that cost you money : send SMS messages (D)",
    "Your messages : receive SMS (D)",
    "System tools : change Wi-Fi state (D)" + "Your messages : read SMS or MMS (D)",
    "Storage : modify/delete USB storage contents modify/delete SD card contents (D)",
    "Hardware controls : control Bluetooth (D)",
    "System tools : change Wi-Fi state (D)",
    "Phone calls : read phone state and identity (D)",
    "Services that cost you money : directly call phone numbers (D)"
  ]

  const Entries16To30: seq<string> := [
    "Phone calls : modify phone state (S)",
    "Network communication : view network state (S)",
    "Your messages : receive MMS (D)",
    "Your messages : receive WAP (D)",
    "Your messages : send SMS-received broadcast (S)",
    "Network communication : make/receive Internet calls (D)",
    "Your accounts : discover known accounts (S)",
    "Your accounts : manage the accounts list (D)",
    "Your accounts : act as an account authenticator (D)",
    "System tools : write sync settings (D)",
    "System tools : read sync settings (S)",
    "System tools : read sync statistics (S)",
    "System tools : set wallpaper (S)",
    "System tools : set wallpaper size hints (S)",
    "System tools : bluetooth administration (D)"
  ]

  const Entries31To45: seq<string> := [
    "Hardware controls : connect to Bluetooth devices (D)",
    "Hardware controls : change your audio settings (D)",
    "Network communication : control Near Field Communication (D)",
    "System tools : prevent device from sleeping (D)",
    "Hardware controls : control vibrator (S)",
    "Hardware controls : control flashlight (S)",
    "Hardware controls : test hardware (S)",
    "Default : directly install applications (S)",
    "System tools : display system-level alerts (D)",
    "System tools : modify global system settings (D)",
    "Your personal information : read calendar events (D)",
    "Your personal information : add or modify calendar events and send email to guests (D)",
    "Your personal information : read user defined dictionary (D)",
    "Your personal information : write to user defined dictionary (S)",
    "Your personal information : set alarm in alarm clock (S)"
  ]

  const AllPermissions: seq<string> := Entries1To15 + Entries16To30 + Entries31To45

  /** `p` ends with the dangerous marker "(D)". */
  predicate IsDangerous(p: string) {
    3 <= |p| && p[|p| - 3] == '(' && p[|p| - 2] == 'D' && p[|p| - 1] == ')'
  }

  /** The character-wise test is the suffix test: `p` is dangerous exactly
      when its last three characters are "(D)". */
  lemma IsDangerousEndsWith(p: string)
    ensures IsDangerous(p) <==> 3 <= |p| && p[|p| - 3..] == "(D)"
  {
    if 3 <= |p| && IsDangerous(p) {
      assert p[|p| - 3..] == [p[|p| - 3], p[|p| - 2], p[|p| - 1]];
    }
  }

  /** The entries of `ps` from position `k` on that end with "(D)", in their
      original order. */
  function FilterDangerous(ps: seq<string>, k: nat): (r: seq<string>)
    requires k <= |ps|
    ensures |r| <= |ps| - k
    decreases |ps| - k
  {
    if k == |ps| then []
    else (if IsDangerous(ps[k]) then [ps[k]] else []) + FilterDangerous(ps, k + 1)
  }

  /** The dangerous vocabulary; position i of this list is feature slot i. */
  const DangerousPermissions: seq<string> := FilterDangerous(AllPermissions, 0)

  /** Exactly the entries from position `k` on that end with "(D)" are kept. */
  lemma {:induction false} FilterDangerousMembers(ps: seq<string>, k: nat)
    requires k <= |ps|
    ensures forall p :: p in FilterDangerous(ps, k) <==> p in ps[k..] && IsDangerous(p)
    decreases |ps| - k
  {
    if k < |ps| {
      FilterDangerousMembers(ps, k + 1);
      assert ps[k..] == [ps[k]] + ps[k + 1..];
    }
  }

  /** Filtering from position `k` of `a + b`, with `k` inside `a`, is the
      filtered rest of `a` followed by the filtered `b`. */
  lemma {:induction false} FilterDangerousSplit(a: seq<string>, b: seq<string>, k: nat)
    requires k <= |a|
    ensures FilterDangerous(a + b, k) == FilterDangerous(a, k) + FilterDangerous(b, 0)
    decreases |a| - k
  {
    if k < |a| {
      FilterDangerousSplit(a, b, k + 1);
      assert (a + b)[k] == a[k];
    } else {
      FilterDangerousShift(a, b, 0);
    }
  }

  /** Filtering `a + b` past the end of `a` is filtering `b`. */
  lemma {:induction false} FilterDangerousShift(a: seq<string>, b: seq<string>, j: nat)
    requires j <= |b|
    ensures FilterDangerous(a + b, |a| + j) == FilterDangerous(b, j)
    decreases |b| - j
  {
    if j < |b| {
      FilterDangerousShift(a, b, j + 1);
      assert (a + b)[|a| + j] == b[j];
    }
  }

  /** A "(D)" entry at or after position `k` is kept. */
  lemma {:induction false} FilterDangerousKeeps(ps: seq<string>, k: nat, j: nat)
    requires k <= j < |ps| && IsDangerous(ps[j])
    ensures ps[j] in FilterDangerous(ps, k)
    decreases j - k
  {
    if k < j {
      FilterDangerousKeeps(ps, k + 1, j);
    }
  }

  /** The filter keeps relative order: it distributes over concatenation. */
  lemma FilterDangerousAppend(a: seq<string>, b: seq<string>)
    ensures FilterDangerous(a + b, 0) == FilterDangerous(a, 0) + FilterDangerous(b, 0)
  {
    FilterDangerousSplit(a, b, 0);
  }

  /** The dangerous vocabulary is exactly the "(D)" entries of the full list. */
  lemma DangerousPermissionsMembers()
    ensures forall p :: p in DangerousPermissions <==> p in AllPermissions && IsDangerous(p)
    ensures forall i :: 0 <= i < |DangerousPermissions| ==> IsDangerous(DangerousPermissions[i])
  {
    FilterDangerousMembers(AllPermissions, 0);
    assert AllPermissions[0..] == AllPermissions;
  }

  lemma Entries1To15DangerousCount()
    ensures |Entries1To15| == 15
    ensures |FilterDangerous(Entries1To15, 0)| == 15
  {
    assert |FilterDangerous(Entries1To15, 14)| == 1;
    assert |FilterDangerous(Entries1To15, 13)| == 2;
    assert |FilterDangerous(Entries1To15, 12)| == 3;
    assert |FilterDangerous(Entries1To15, 11)| == 4;
    assert |FilterDangerous(Entries1To15, 10)| == 5;
    assert |FilterDangerous(Entries1To15, 9)| == 6;
    assert |FilterDangerous(Entries1To15, 8)| == 7;
    assert |FilterDangerous(Entries1To15, 7)| == 8;
    assert |FilterDangerous(Entries1To15, 6)| == 9;
    assert |FilterDangerous(Entries1To15, 5)| == 10;
    assert |FilterDangerous(Entries1To15, 4)| == 11;
    assert |FilterDangerous(Entries1To15, 3)| == 12;
    assert |FilterDangerous(Entries1To15, 2)| == 13;
    assert |FilterDangerous(Entries1To15, 1)| == 14;
  }

  lemma Entries16To30DangerousCount()
    ensures |Entries16To30| == 15
    ensures |FilterDangerous(Entries16To30, 0)| == 7
  {
    assert |FilterDangerous(Entries16To30, 14)| == 1;
    assert |FilterDangerous(Entries16To30, 13)| == 1;
    assert |FilterDangerous(Entries16To30, 12)| == 1;
    assert |FilterDangerous(Entries16To30, 11)| == 1;
    assert |FilterDangerous(Entries16To30, 10)| == 1;
    assert |FilterDangerous(Entries16To30, 9)| == 2;
    assert |FilterDangerous(Entries16To30, 8)| == 3;
    assert |FilterDangerous(Entries16To30, 7)| == 4;
    assert |FilterDangerous(Entries16To30, 6)| == 4;
    assert |FilterDangerous(Entries16To30, 5)| == 5;
    assert |FilterDangerous(Entries16To30, 4)| == 5;
    assert |FilterDangerous(Entries16To30, 3)| == 6;
    assert |FilterDangerous(Entries16To30, 2)| == 7;
    assert |FilterDangerous(Entries16To30, 1)| == 7;
  }

  lemma Entries31To45DangerousCount()
    ensures |Entries31To45| == 15
    ensures |FilterDangerous(Entries31To45, 0)| == 9
  {
    assert |FilterDangerous(Entries31To45, 14)| == 0;
    assert |FilterDangerous(Entries31To45, 13)| == 0;
    assert |FilterDangerous(Entries31To45, 12)| == 1;
    assert |FilterDangerous(Entries31To45, 11)| == 2;
    assert |FilterDangerous(Entries31To45, 10)| == 3;
    assert |FilterDangerous(Entries31To45, 9)| == 4;
    assert |FilterDangerous(Entries31To45, 8)| == 5;
    assert |FilterDangerous(Entries31To45, 7)| == 5;
    assert |FilterDangerous(Entries31To45, 6)| == 5;
    assert |FilterDangerous(Entries31To45, 5)| == 5;
    assert |FilterDangerous(Entries31To45, 4)| == 5;
    assert |FilterDangerous(Entries31To45, 3)| == 6;
    assert |FilterDangerous(Entries31To45, 2)| == 7;
    assert |FilterDangerous(Entries31To45, 1)| == 8;
  }

  /** No description occurs twice in the full list. */
  lemma AllPermissionsDistinct()
    ensures Distinct(AllPermissions)
  {
    Entries1To15Distinct();
    Entries16To30Distinct();
    Entries31To45Distinct();
    RunsDisjoint();
    DistinctAppend(Entries1To15, Entries16To30);
    DistinctAppend(Entries1To15 + Entries16To30, Entries31To45);
  }

  lemma Entries1To15Distinct()
    ensures Distinct(Entries1To15)
  {
  }

  lemma Entries16To30Distinct()
    ensures Distinct(Entries16To30)
  {
  }

  lemma Entries31To45Distinct()
    ensures Distinct(Entries31To45)
  {
  }

  lemma RunsDisjoint()
    ensures forall x :: x in Entries1To15 ==> x !in Entries16To30 && x !in Entries31To45
    ensures forall x :: x in Entries16To30 ==> x !in Entries31To45
  {
    Disjoint1To15And16To30();
    Disjoint1To15And31To45();
    Disjoint16To30And31To45();
  }

  lemma Disjoint1To15And16To30()
    ensures forall x :: x in Entries1To15 ==> x !in Entries16To30
  {
  }

  lemma Disjoint1To15And31To45()
    ensures forall x :: x in Entries1To15 ==> x !in Entries31To45
  {
  }

  lemma Disjoint16To30And31To45()
    ensures forall x :: x in Entries16To30 ==> x !in Entries31To45
  {
  }

  /** Two lists without repetitions and without common entries concatenate
      to one without repetitions. */
  lemma DistinctAppend(a: seq<string>, b: seq<string>)
    requires Distinct(a) && Distinct(b)
    requires forall x :: x in a ==> x !in b
    ensures Distinct(a + b)
  {
    var c := a + b;
    forall i, j | 0 <= i < j < |c| ensures c[i] != c[j] {
      if j < |a| {
        assert c[i] == a[i] && c[j] == a[j];
      } else if i < |a| {
        assert c[i] == a[i] && c[j] == b[j - |a|];
        assert a[i] in a;
      } else {
        assert c[i] == b[i - |a|] && c[j] == b[j - |a|];
      }
    }
  }

  /** Filtering keeps a list without repetitions free of them. */
  lemma {:induction false} FilterDangerousDistinct(ps: seq<string>, k: nat)
    requires k <= |ps| && Distinct(ps)
    ensures Distinct(FilterDangerous(ps, k))
    decreases |ps| - k
  {
    if k < |ps| {
      FilterDangerousDistinct(ps, k + 1);
      FilterDangerousMembers(ps, k + 1);
      var rest := FilterDangerous(ps, k + 1);
      if IsDangerous(ps[k]) {
        assert ps[k] !in ps[k + 1..] by {
          forall j | k + 1 <= j < |ps| ensures ps[j] != ps[k] { }
        }
        DistinctCons(ps[k], rest);
      }
    }
  }

  /** Putting an absent entry in front keeps a list free of repetitions. */
  lemma DistinctCons(x: string, rest: seq<string>)
    requires Distinct(rest) && x !in rest
    ensures Distinct([x] + rest)
  {
    var c := [x] + rest;
    forall i, j | 0 <= i < j < |c| ensures c[i] != c[j] {
      assert c[j] == rest[j - 1];
      if i > 0 {
        assert c[i] == rest[i - 1];
      }
    }
  }

  /** The dangerous vocabulary holds no entry twice, so each feature slot
      stands for a different permission. */
  lemma DangerousPermissionsDistinct()
    ensures Distinct(DangerousPermissions)
  {
    AllPermissionsDistinct();
    FilterDangerousDistinct(AllPermissions, 0);
  }

  /** The full list holds 45 entries, 31 of which end with "(D)". */
  lemma DangerousPermissionsSize()
    ensures |AllPermissions| == 45
    ensures |DangerousPermissions| == 31
  {
    Entries1To15DangerousCount();
    Entries16To30DangerousCount();
    Entries31To45DangerousCount();
    FilterDangerousAppend(Entries1To15 + Entries16To30, Entries31To45);
    FilterDangerousAppend(Entries1To15, Entries16To30);
  }

  /** The run-together tenth entry is a vocabulary entry of its own, and
      the Wi-Fi description still reaches the vocabulary on its own through
      the thirteenth entry. */
  lemma RunTogetherEntry()
    ensures "System tools : change Wi-Fi state (D)" + "Your messages : read SMS or MMS (D)" in DangerousPermissions
    ensures "System tools : change Wi-Fi state (D)" in DangerousPermissions
  {
    FilterDangerousAppend(Entries1To15, Entries16To30 + Entries31To45);
    assert AllPermissions == Entries1To15 + (Entries16To30 + Entries31To45);
    assert Entries1To15[9] == "System tools : change Wi-Fi state (D)" + "Your messages : read SMS or MMS (D)";
    FilterDangerousKeeps(Entries1To15, 0, 9);
    FilterDangerousKeeps(Entries1To15, 0, 12);
  }

  /** Because of the run-together tenth entry, the SMS/MMS read permission is
      not in the vocabulary, although it is marked dangerous. */
  lemma ReadSmsOrMmsMissing()
    ensures IsDangerous("Your messages : read SMS or MMS (D)")
    ensures "Your messages : read SMS or MMS (D)" !in DangerousPermissions
  {
    ReadSmsOrMmsAbsentFrom1To15();
    ReadSmsOrMmsAbsentFrom16To30();
    ReadSmsOrMmsAbsentFrom31To45();
    FilterDangerousMembers(AllPermissions, 0);
    assert AllPermissions[0..] == AllPermissions;
  }

  lemma ReadSmsOrMmsAbsentFrom1To15()
    ensures "Your messages : read SMS or MMS (D)" !in Entries1To15
  {
  }

  lemma ReadSmsOrMmsAbsentFrom16To30()
    ensures "Your messages : read SMS or MMS (D)" !in Entries16To30
  {
  }

  lemma ReadSmsOrMmsAbsentFrom31To45()
    ensures "Your messages : read SMS or MMS (D)" !in Entries31To45
  {
  }

  // ---------------------------------------------------------------------------
  // Binary feature encoder
  // ---------------------------------------------------------------------------

  /** The indicator vector of `permissions` over `vocabulary`: one slot per
      vocabulary entry, 1 when that exact string occurs in `permissions`. */
  function Encode(vocabulary: seq<string>, permissions: seq<string>): (r: seq<int>)
    ensures |r| == |vocabulary|
    ensures forall i :: 0 <= i < |r| ==> r[i] == 0 || r[i] == 1
    ensures forall i :: 0 <= i < |r| ==> (r[i] == 1 <==> vocabulary[i] in permissions)
  {
    if vocabulary == [] then []
    else [if vocabulary[0] in permissions then 1 else 0] + Encode(vocabulary[1..], permissions)
  }

  /** The feature vector the classifier expects: the indicator vector over the
      dangerous vocabulary. */
  function Features(permissions: seq<string>): (r: seq<int>)
    ensures |r| == |DangerousPermissions|
  {
    Encode(DangerousPermissions, permissions)
  }

  /** Allocates a zero vector with one slot per dangerous permission and sets
      slot i to 1 when the i-th dangerous permission occurs in `permissions`. */
  method FeatureEngineering(permissions: seq<string>) returns (features: array<int>)
    ensures fresh(features)
    ensures features.Length == |DangerousPermissions|
    ensures features[..] == Features(permissions)
  {
    features := new int[|DangerousPermissions|](_ => 0);
    for i := 0 to |DangerousPermissions|
      invariant forall k :: 0 <= k < i ==> features[k] == (if DangerousPermissions[k] in permissions then 1 else 0)
      invariant forall k :: i <= k < features.Length ==> features[k] == 0
    {
      if DangerousPermissions[i] in permissions {
        features[i] := 1;
      }
    }
  }

  /** Only which strings occur matters: two requests with the same members
      encode alike, whatever their order or repetitions. */
  lemma {:induction false} EncodeSameMembers(vocabulary: seq<string>, p: seq<string>, q: seq<string>)
    requires forall x :: x in p <==> x in q
    ensures Encode(vocabulary, p) == Encode(vocabulary, q)
  {
    if vocabulary != [] {
      EncodeSameMembers(vocabulary[1..], p, q);
    }
  }

  /** Permuting the request does not change the encoding. */
  lemma EncodePermutation(vocabulary: seq<string>, p: seq<string>, q: seq<string>)
    requires multiset(p) == multiset(q)
    ensures Encode(vocabulary, p) == Encode(vocabulary, q)
  {
    forall x
      ensures x in p <==> x in q
    {
      assert x in p <==> x in multiset(p);
      assert x in q <==> x in multiset(q);
    }
    EncodeSameMembers(vocabulary, p, q);
  }

  /** Repeating a requested permission does not change the encoding. */
  lemma EncodeDuplicate(vocabulary: seq<string>, p: seq<string>, x: string)
    requires x in p
    ensures Encode(vocabulary, p + [x]) == Encode(vocabulary, p)
  {
    EncodeSameMembers(vocabulary, p + [x], p);
  }

  /** A string that is not a vocabulary entry changes nothing. */
  lemma EncodeUnknown(vocabulary: seq<string>, p: seq<string>, x: string)
    requires x !in vocabulary
    ensures Encode(vocabulary, p + [x]) == Encode(vocabulary, p)
  {
    var r, s := Encode(vocabulary, p + [x]), Encode(vocabulary, p);
    forall i | 0 <= i < |vocabulary|
      ensures r[i] == s[i]
    {
      assert vocabulary[i] != x;
    }
  }

  /** An empty request encodes as the all-zero vector. */
  lemma {:induction false} EncodeEmpty(vocabulary: seq<string>)
    ensures Encode(vocabulary, []) == seq(|vocabulary|, _ => 0)
  {
    if vocabulary != [] {
      EncodeEmpty(vocabulary[1..]);
    }
  }

  /** Sum of the slots of a vector. */
  function Ones(v: seq<int>): int {
    if v == [] then 0 else v[0] + Ones(v[1..])
  }

  /** No entry occurs twice. */
  predicate Distinct(vocabulary: seq<string>) {
    forall i, j :: 0 <= i < j < |vocabulary| ==> vocabulary[i] != vocabulary[j]
  }

  /** Dropping the first entry of a vocabulary without repetitions leaves
      one without repetitions that does not hold that entry. */
  lemma DistinctTail(vocabulary: seq<string>)
    requires Distinct(vocabulary) && vocabulary != []
    ensures Distinct(vocabulary[1..]) && vocabulary[0] !in vocabulary[1..]
  {
    var rest := vocabulary[1..];
    forall i, j | 0 <= i < j < |rest| ensures rest[i] != rest[j] {
      assert rest[i] == vocabulary[i + 1] && rest[j] == vocabulary[j + 1];
    }
    forall j | 0 <= j < |rest| ensures rest[j] != vocabulary[0] {
      assert rest[j] == vocabulary[j + 1];
    }
  }

  /** The vocabulary entries present in a request: the first entry, when
      present, and those of the rest. */
  lemma MatchedSplit(vocabulary: seq<string>, p: seq<string>)
    requires vocabulary != []
    ensures (set x | x in vocabulary && x in p) ==
            (set x | x in vocabulary[1..] && x in p) + (if vocabulary[0] in p then {vocabulary[0]} else {})
  {
    assert vocabulary == [vocabulary[0]] + vocabulary[1..];
  }

  /** The first slot plus the slots of the rest. */
  lemma OnesSplit(vocabulary: seq<string>, p: seq<string>)
    requires vocabulary != []
    ensures Ones(Encode(vocabulary, p)) == (if vocabulary[0] in p then 1 else 0) + Ones(Encode(vocabulary[1..], p))
  {
    var e := Encode(vocabulary, p);
    assert e[1..] == Encode(vocabulary[1..], p);
  }

  /** Over a vocabulary without repetitions the vector has as many 1-slots as
      there are distinct vocabulary entries in the request. */
  lemma {:induction false} EncodeOnes(vocabulary: seq<string>, p: seq<string>)
    requires Distinct(vocabulary)
    ensures Ones(Encode(vocabulary, p)) == |set x | x in vocabulary && x in p|
  {
    if vocabulary != [] {
      DistinctTail(vocabulary);
      EncodeOnes(vocabulary[1..], p);
      OnesSplit(vocabulary, p);
      MatchedSplit(vocabulary, p);
      assert vocabulary[0] !in (set x | x in vocabulary[1..] && x in p);
    }
  }

  /** The feature vector has as many 1-slots as there are distinct dangerous
      permissions in the request. */
  lemma FeaturesOnes(permissions: seq<string>)
    ensures Ones(Features(permissions)) == |set x | x in DangerousPermissions && x in permissions|
  {
    DangerousPermissionsDistinct();
    EncodeOnes(DangerousPermissions, permissions);
  }

  // ---------------------------------------------------------------------------
  // Reputation lookup stub
  // ---------------------------------------------------------------------------

  const ReputationPrefix: string := "VirusTotal API integration ready for "
  const ReputationSuffix: string := "... (placeholder)"

  /** The first eight characters of `sha256`, or all of it when shorter
      (a slice past the end is cut short, never an error). */
  function HashPrefix(sha256: string): (r: string)
    ensures |r| == if |sha256| < 8 then |sha256| else 8
    ensures r <= sha256
    ensures |sha256| <= 8 ==> r == sha256
  {
    if |sha256| < 8 then sha256 else sha256[..8]
  }

  /** Reads back the hash prefix embedded in a status message. */
  function ReportedHash(status: string): Option<string>
  {
    if |ReputationPrefix| + |ReputationSuffix| <= |status|
       && status[..|ReputationPrefix|] == ReputationPrefix
       && status[|status| - |ReputationSuffix|..] == ReputationSuffix
    then Some(status[|ReputationPrefix|..|status| - |ReputationSuffix|])
    else None
  }

  /** The placeholder reputation status for a content hash; no lookup is
      made. The message embeds the hash prefix, which can be read back. */
  function CheckVirusTotal(sha256: string): (r: string)
    ensures ReportedHash(r) == Some(HashPrefix(sha256))
  {
    var r := ReputationPrefix + HashPrefix(sha256) + ReputationSuffix;
    assert r[..|ReputationPrefix|] == ReputationPrefix;
    assert r[|r| - |ReputationSuffix|..] == ReputationSuffix;
    assert r[|ReputationPrefix|..|r| - |ReputationSuffix|] == HashPrefix(sha256);
    r
  }

  /** Two hashes give the same status exactly when their first eight
      characters (or whole, when shorter) agree. */
  lemma CheckVirusTotalSame(a: string, b: string)
    ensures CheckVirusTotal(a) == CheckVirusTotal(b) <==> HashPrefix(a) == HashPrefix(b)
  {
  }

  // ---------------------------------------------------------------------------
  // Static risk heuristic
  // ---------------------------------------------------------------------------

  /** How many requested permissions, counted with repetitions, are in the
      dangerous vocabulary. */
  function DangerousCount(permissions: seq<string>): (n: nat)
    ensures n <= |permissions|
  {
    if permissions == [] then 0
    else (if permissions[0] in DangerousPermissions then 1 else 0) + DangerousCount(permissions[1..])
  }

  /** The count adds up over concatenation: each occurrence counts once. */
  lemma {:induction false} DangerousCountAppend(p: seq<string>, q: seq<string>)
    ensures DangerousCount(p + q) == DangerousCount(p) + DangerousCount(q)
  {
    if p != [] {
      assert (p + q)[1..] == p[1..] + q;
      DangerousCountAppend(p[1..], q);
    } else {
      assert p + q == q;
    }
  }

  /** The divisor: half the list length, but never below 5. */
  function Divisor(total: nat): (d: real)
    ensures d >= 5.0 && d >= total as real / 2.0
    ensures d == 5.0 || d == total as real / 2.0
  {
    if 5.0 < total as real / 2.0 then total as real / 2.0 else 5.0
  }

  /** The count of dangerous permissions over the divisor, capped at 1. */
  function RiskRatio(dangerous: nat, total: nat): (r: real)
    ensures 0.0 <= r <= 1.0
    ensures r == 1.0 <==> dangerous as real >= Divisor(total)
    ensures dangerous as real < Divisor(total) ==> r == dangerous as real / Divisor(total)
  {
    var x := dangerous as real / Divisor(total);
    if 1.0 <= x then 1.0 else x
  }

  /** The model-free risk estimate; an empty list scores 0. */
  function StaticRisk(permissions: seq<string>): (r: real)
    ensures 0.0 <= r <= 1.0
    ensures permissions == [] ==> r == 0.0
  {
    if permissions == [] then 0.0
    else RiskRatio(DangerousCount(permissions), |permissions|)
  }

  /** Up to ten permissions the divisor is exactly 5; from ten on it is half
      the length. */
  lemma DivisorValue(total: nat)
    ensures total <= 10 ==> Divisor(total) == 5.0
    ensures total >= 10 ==> Divisor(total) == total as real / 2.0
  {
  }

  /** For a fixed list length, more dangerous permissions never lower the
      risk. */
  lemma RiskRatioMonotone(d1: nat, d2: nat, total: nat)
    requires d1 <= d2
    ensures RiskRatio(d1, total) <= RiskRatio(d2, total)
  {
    var q := Divisor(total);
    assert d1 as real / q <= d2 as real / q;
  }

  /** The same for whole lists of equal length. */
  lemma StaticRiskMonotone(p: seq<string>, q: seq<string>)
    requires |p| == |q| && DangerousCount(p) <= DangerousCount(q)
    ensures StaticRisk(p) <= StaticRisk(q)
  {
    if p != [] {
      RiskRatioMonotone(DangerousCount(p), DangerousCount(q), |p|);
    }
  }
}
