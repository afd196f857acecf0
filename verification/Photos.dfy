/** The flat `/photos` namespace: how same-named photos get their display names, when those names
    are distinct, and what looking one up returns. */
module Photos {
  import opened Text
  import opened Paths

  datatype PhotoNode = PhotoNode(uid: string, name: Option<string>, tags: Option<seq<nat>>)

  datatype Photo = Photo(displayName: string, node: PhotoNode)

  // ---- Base names -------------------------------------------------------------------

  predicate HexDigit(c: char) {
    '0' <= c <= '9' || 'a' <= c <= 'f' || 'A' <= c <= 'F'
  }

  predicate LooksLikeHash(s: string) {
    |s| >= 8 && forall i :: 0 <= i < |s| ==> HexDigit(s[i])
  }

  /** Drops a leading `^<hash>^`. */
  function StripImportHash(name: string): string {
    if name == "" || name[0] != '^' then name
    else
      var rest := name[1..];
      var caret := FirstIndexOf(rest, '^');
      if caret < |rest| && LooksLikeHash(rest[..caret]) then rest[caret + 1..] else name
  }

  /** At least eight hexadecimal digits. */
  predicate ImportHash(s: string) {
    |s| >= 8 && forall c :: c in s ==> c in "0123456789abcdefABCDEF"
  }

  lemma {:induction false} HexDigitIff(c: char)
    ensures HexDigit(c) <==> c in "0123456789abcdefABCDEF"
  {
    var digits := "0123456789abcdefABCDEF";
    assert forall i :: 0 <= i < 22 ==> HexDigit(digits[i]);
    if '0' <= c <= '9' { assert digits[c as int - '0' as int] == c; }
    if 'a' <= c <= 'f' { assert digits[10 + c as int - 'a' as int] == c; }
    if 'A' <= c <= 'F' { assert digits[16 + c as int - 'A' as int] == c; }
  }

  lemma {:induction false} HashIff(s: string)
    ensures LooksLikeHash(s) <==> ImportHash(s)
  {
    forall i | 0 <= i < |s|
      ensures HexDigit(s[i]) <==> s[i] in "0123456789abcdefABCDEF"
    {
      HexDigitIff(s[i]);
    }
  }

  /** Exactly the names of that shape are shortened, to what follows the second caret. */
  lemma {:induction false} StripIsExact(name: string, hash: string, rest: string)
    ensures ImportHash(hash) ==> StripImportHash("^" + hash + "^" + rest) == rest
    ensures StripImportHash(name) != name ==>
              exists h :: ImportHash(h) && name == "^" + h + "^" + StripImportHash(name)
  {
    HashIff(hash);
    if LooksLikeHash(hash) {
      FirstIndexAfter(hash, '^', rest);
      assert hash + ['^'] + rest == ("^" + hash + "^" + rest)[1..];
      assert (hash + ['^'] + rest)[..|hash|] == hash;
    }
    if StripImportHash(name) != name {
      var tail := name[1..];
      var h := tail[..FirstIndexOf(tail, '^')];
      HashIff(h);
      assert name == "^" + h + "^" + StripImportHash(name);
    }
  }

  /** A name without a leading hash is shown as it is, one with it without; a node without a name shows its id. */
  lemma {:induction false} BaseIs(node: PhotoNode, hash: string, rest: string)
    ensures var shown := if node.name.Some? then node.name.value else node.uid;
      && (ImportHash(hash) && shown == "^" + hash + "^" + rest ==> BaseOf(node) == rest)
      && ((forall h, after :: ImportHash(h) ==> shown != "^" + h + "^" + after) ==> BaseOf(node) == shown)
  {
    StripIsExact(if node.name.Some? then node.name.value else node.uid, hash, rest);
  }

  function BaseOf(node: PhotoNode): string {
    StripImportHash(if node.name.Some? then node.name.value else node.uid)
  }

  // ---- Suffixes ---------------------------------------------------------------------

  function Decimal(n: nat): string {
    if n < 10 then [('0' as int + n) as char] else Decimal(n / 10) + [('0' as int + n % 10) as char]
  }

  lemma {:induction false} DecimalDigits(n: nat)
    ensures Decimal(n) != "" && forall i :: 0 <= i < |Decimal(n)| ==> '0' <= Decimal(n)[i] <= '9'
  {
    if n >= 10 { DecimalDigits(n / 10); }
  }

  lemma {:induction false} DecimalInjective(m: nat, n: nat)
    requires Decimal(m) == Decimal(n)
    ensures m == n
    decreases m
  {
    DecimalDigits(m / 10);
    DecimalDigits(n / 10);
    var s, t := Decimal(m), Decimal(n);
    assert s[|s| - 1] == ('0' as int + m % 10) as char;
    assert t[|t| - 1] == ('0' as int + n % 10) as char;
    if m >= 10 && n >= 10 {
      assert s[..|s| - 1] == Decimal(m / 10) && t[..|t| - 1] == Decimal(n / 10);
      DecimalInjective(m / 10, n / 10);
    }
  }

  /** The name of the n-th photo with this base name. */
  function Suffixed(base: string, n: nat): string {
    if n == 1 then base
    else
      var dot := LastIndexOf(base, '.');
      if dot < 0 then Numbered(base, n) else Numbered(base[..dot], n) + "." + base[dot + 1..]
  }

  function Numbered(stem: string, n: nat): string {
    stem + " (" + Decimal(n) + ")"
  }

  lemma {:induction false} NumberedInjective(a: string, m: nat, b: string, n: nat)
    requires Numbered(a, m) == Numbered(b, n)
    ensures a == b && m == n
  {
    NumberedParts(a, m);
    NumberedParts(b, n);
    var s := Numbered(a, m);
    assert a + " " == b + " ";
    assert (a + " ")[..|a|] == a && (b + " ")[..|b|] == b;
    assert Decimal(m) == Decimal(n);
    DecimalInjective(m, n);
  }

  lemma {:induction false} NumberedParts(a: string, m: nat)
    ensures var s := Numbered(a, m);
      && LastIndexOf(s, '(') == |a| + 1 && s[..|a| + 1] == a + " " && s[|a| + 2..|s| - 1] == Decimal(m)
      && ('.' in s <==> '.' in a)
  {
    DecimalDigits(m);
    var head, digits := a + [' '], Decimal(m);
    assert Numbered(a, m) == head + ['('] + (digits + [')']);
    LastIndexBefore(head, '(', digits + [')']);
    MiddlePart(head, '(', digits, ')');
    NoDotAdded(a, digits);
  }

  lemma {:induction false} MiddlePart(head: string, c: char, mid: string, d: char)
    ensures var s := head + [c] + (mid + [d]);
      s[..|head|] == head && s[|head| + 1..|s| - 1] == mid
  {
  }

  lemma {:induction false} NoDotAdded(a: string, digits: string)
    requires forall i :: 0 <= i < |digits| ==> '0' <= digits[i] <= '9'
    ensures '.' in a + [' '] + ['('] + (digits + [')']) <==> '.' in a
  {
    var s := a + [' '] + ['('] + (digits + [')']);
    forall i | |a| <= i < |s|
      ensures s[i] != '.'
    {
      if |a| + 2 <= i < |s| - 1 { assert s[i] == digits[i - |a| - 2]; }
    }
    assert forall i :: 0 <= i < |a| ==> s[i] == a[i];
  }

  lemma {:induction false} SuffixedParts(base: string, n: nat)
    requires n != 1
    ensures var s := Suffixed(base, n);
      var dot := LastIndexOf(base, '.');
      if dot < 0 then '.' !in s && s == Numbered(base, n)
      else var cut := LastIndexOf(s, '.');
           0 <= cut && s[..cut] == Numbered(base[..dot], n) && s[cut + 1..] == base[dot + 1..]
  {
    var dot := LastIndexOf(base, '.');
    if dot < 0 {
      NumberedParts(base, n);
    } else {
      var stem, ext := Numbered(base[..dot], n), base[dot + 1..];
      assert stem + ['.'] + ext == Suffixed(base, n);
      LastIndexBefore(stem, '.', ext);
    }
  }

  /** Generated names never clash with one another: they determine the base and the number. */
  lemma {:induction false} SuffixedInjective(a: string, m: nat, b: string, n: nat)
    requires m != 1 && n != 1 && Suffixed(a, m) == Suffixed(b, n)
    ensures a == b && m == n
  {
    SuffixedParts(a, m);
    SuffixedParts(b, n);
    var i, j := LastIndexOf(a, '.'), LastIndexOf(b, '.');
    if i < 0 {
      NumberedInjective(a, m, b, n);
    } else {
      NumberedInjective(a[..i], m, b[..j], n);
      CutAndJoined(a, i, '.');
      CutAndJoined(b, j, '.');
    }
  }

  lemma {:induction false} CutAndJoined(s: string, i: nat, c: char)
    requires i < |s| && s[i] == c
    ensures s == s[..i] + [c] + s[i + 1..]
  {
  }

  lemma {:induction false} SuffixedDiffers(base: string, n: nat)
    requires n != 1
    ensures Suffixed(base, n) != base
  {
    DecimalDigits(n);
    assert |Suffixed(base, n)| > |base|;
  }

  // ---- disambiguate -----------------------------------------------------------------

  function Count(bases: seq<string>, base: string): nat
    decreases |bases|
  {
    if bases == [] then 0
    else Count(bases[..|bases| - 1], base) + (if bases[|bases| - 1] == base then 1 else 0)
  }

  function Bases(nodes: seq<PhotoNode>): seq<string> {
    seq(|nodes|, i requires 0 <= i < |nodes| => BaseOf(nodes[i]))
  }

  /** Which of the photos with its base name the i-th photo is, counting from 1. */
  function Occurrence(bases: seq<string>, i: nat): nat
    requires i < |bases|
  {
    Count(bases[..i + 1], bases[i])
  }

  function NameAt(bases: seq<string>, i: nat): string
    requires i < |bases|
  {
    Suffixed(bases[i], Occurrence(bases, i))
  }

  /** The counting loop: each photo keeps its node and place, and the n-th of a base name gets
      that base's n-th name. */
  method Disambiguate(nodes: seq<PhotoNode>) returns (photos: seq<Photo>)
    ensures |photos| == |nodes|
    ensures forall i :: 0 <= i < |nodes| ==> photos[i] == Photo(NameAt(Bases(nodes), i), nodes[i])
  {
    var seen: map<string, nat> := map[];
    ghost var bases := Bases(nodes);
    photos := [];
    for i := 0 to |nodes|
      invariant |photos| == i
      invariant forall k :: 0 <= k < i ==> photos[k] == Photo(NameAt(bases, k), nodes[k])
      invariant Tallies(seen, bases[..i])
    {
      var base := BaseOf(nodes[i]);
      var count := (if base in seen then seen[base] else 0) + 1;
      TallyNext(seen, bases, i);
      seen := seen[base := count];
      photos := photos + [Photo(Suffixed(base, count), nodes[i])];
    }
  }

  ghost predicate Tallies(seen: map<string, nat>, bases: seq<string>) {
    forall b :: Count(bases, b) == if b in seen then seen[b] else 0
  }

  lemma {:induction false} TallyNext(seen: map<string, nat>, bases: seq<string>, i: nat)
    requires i < |bases| && Tallies(seen, bases[..i])
    ensures var count := (if bases[i] in seen then seen[bases[i]] else 0) + 1;
      Tallies(seen[bases[i] := count], bases[..i + 1]) && Occurrence(bases, i) == count
  {
    assert bases[..i + 1][..i] == bases[..i];
  }

  lemma {:induction false} OccurrenceGrows(bases: seq<string>, i: nat, j: nat)
    requires i < j < |bases| && bases[i] == bases[j]
    ensures Occurrence(bases, i) < Occurrence(bases, j)
  {
    assert bases[..j + 1][..j] == bases[..j];
    CountGrows(bases, i + 1, j, bases[i]);
  }

  lemma {:induction false} CountGrows(bases: seq<string>, i: nat, j: nat, base: string)
    requires i <= j <= |bases|
    ensures Count(bases[..i], base) <= Count(bases[..j], base)
    decreases j
  {
    if i < j {
      assert bases[..j][..j - 1] == bases[..j - 1];
      CountGrows(bases, i, j - 1, base);
    }
  }

  lemma {:induction false} OccurrencePositive(bases: seq<string>, i: nat)
    requires i < |bases|
    ensures Occurrence(bases, i) >= 1
  {
    assert bases[..i + 1][..i] == bases[..i];
  }

  lemma {:induction false} FirstOccurrence(bases: seq<string>, j: nat) returns (first: nat)
    requires j < |bases|
    ensures first <= j && bases[first] == bases[j] && Occurrence(bases, first) == 1
    decreases j
  {
    if k :| 0 <= k < j && bases[k] == bases[j] {
      first := FirstOccurrence(bases, k);
    } else {
      first := j;
      NoneBefore(bases, j, bases[j]);
      assert bases[..j + 1][..j] == bases[..j];
    }
  }

  lemma {:induction false} NoneBefore(bases: seq<string>, n: nat, base: string)
    requires n <= |bases| && forall k :: 0 <= k < n ==> bases[k] != base
    ensures Count(bases[..n], base) == 0
  {
    if n > 0 {
      assert bases[..n][..n - 1] == bases[..n - 1];
      NoneBefore(bases, n - 1, base);
    }
  }

  /** No photo's own base name is one that was generated for another. */
  predicate NoBaseLooksGenerated(bases: seq<string>) {
    forall i, j :: 0 <= i < |bases| && 0 <= j < |bases| && Occurrence(bases, i) >= 2 ==> bases[j] != NameAt(bases, i)
  }

  predicate DistinctNames(bases: seq<string>) {
    forall i, j :: 0 <= i < j < |bases| ==> NameAt(bases, i) != NameAt(bases, j)
  }

  lemma {:induction false} SameNameSameBase(bases: seq<string>, i: nat, j: nat)
    requires NoBaseLooksGenerated(bases) && i < |bases| && j < |bases| && NameAt(bases, i) == NameAt(bases, j)
    ensures bases[i] == bases[j] && Occurrence(bases, i) == Occurrence(bases, j)
  {
    OccurrencePositive(bases, i);
    OccurrencePositive(bases, j);
    if Occurrence(bases, i) >= 2 && Occurrence(bases, j) >= 2 {
      SuffixedInjective(bases[i], Occurrence(bases, i), bases[j], Occurrence(bases, j));
    }
  }

  /** The names are all distinct exactly when no base name equals a generated one. */
  lemma {:induction false} DistinctIff(bases: seq<string>)
    ensures DistinctNames(bases) <==> NoBaseLooksGenerated(bases)
  {
    if NoBaseLooksGenerated(bases) {
      forall i, j | 0 <= i < j < |bases|
        ensures NameAt(bases, i) != NameAt(bases, j)
      {
        if NameAt(bases, i) == NameAt(bases, j) {
          SameNameSameBase(bases, i, j);
          OccurrenceGrows(bases, i, j);
        }
      }
    } else {
      var i, j :| 0 <= i < |bases| && 0 <= j < |bases| && Occurrence(bases, i) >= 2 && bases[j] == NameAt(bases, i);
      var first := FirstOccurrence(bases, j);
      SuffixedDiffers(bases[i], Occurrence(bases, i));
      assert NameAt(bases, first) == NameAt(bases, i);
    }
  }

  /** They do clash for `a.jpg`, `a.jpg`, `a (2).jpg`. */
  lemma {:induction false} NamesCanClash()
    ensures var bases := ["a.jpg", "a.jpg", "a (2).jpg"];
      NameAt(bases, 1) == NameAt(bases, 2) == "a (2).jpg"
  {
    var bases := ["a.jpg", "a.jpg", "a (2).jpg"];
    LastIndexBefore("a", '.', "jpg");
    assert "a" + ['.'] + "jpg" == "a.jpg";
    assert Decimal(2) == "2";
    assert Suffixed("a.jpg", 2) == "a (2).jpg";
    assert bases[..2] == ["a.jpg", "a.jpg"] && bases[..3] == bases;
    assert ["a.jpg", "a.jpg"][..1] == ["a.jpg"] && ["a.jpg"][..0] == [];
    assert Count([], "a.jpg") == 0 && Count(["a.jpg"], "a.jpg") == 1 && Count(["a.jpg", "a.jpg"], "a.jpg") == 2;
    assert bases[..3][..2] == ["a.jpg", "a.jpg"];
    NoneBefore(bases, 2, "a (2).jpg");
  }

  // ---- Looking photos up ------------------------------------------------------------

  /** The first photo with this name. */
  function Find(photos: seq<Photo>, name: string): Option<Photo> {
    if photos == [] then None else if photos[0].displayName == name then Some(photos[0]) else Find(photos[1..], name)
  }

  datatype Category = Favorites | Screenshots | Videos | LivePhotos | Selfies | Portraits | Bursts | Panoramas | Raw

  function Tags(category: Category): seq<nat> {
    match category
    case Favorites => [0]
    case Screenshots => [1]
    case Videos => [2]
    case LivePhotos => [3, 4]
    case Selfies => [5]
    case Portraits => [6]
    case Bursts => [7]
    case Panoramas => [8]
    case Raw => [9]
  }

  predicate InCategory(photo: Photo, category: Category) {
    photo.node.tags.Some? && exists t :: t in photo.node.tags.value && t in Tags(category)
  }

  function FilterByCategory(photos: seq<Photo>, category: Category): seq<Photo> {
    if photos == [] then []
    else (if InCategory(photos[0], category) then [photos[0]] else []) + FilterByCategory(photos[1..], category)
  }

  /** In the order of the categories their tags are 0 to 9, one each but for two of the live photos. */
  lemma {:induction false} TagsInOrder(category: Category)
    ensures Tags(Favorites) + Tags(Screenshots) + Tags(Videos) + Tags(LivePhotos) + Tags(Selfies) + Tags(Portraits) +
            Tags(Bursts) + Tags(Panoramas) + Tags(Raw) == [0, 1, 2, 3, 4, 5, 6, 7, 8, 9]
    ensures |Tags(category)| == if category == LivePhotos then 2 else 1
  {
  }

  lemma {:induction false} FilterMembers(photos: seq<Photo>, category: Category, photo: Photo)
    ensures photo in FilterByCategory(photos, category) <==> photo in photos && InCategory(photo, category)
  {
    if photos != [] {
      FilterMembers(photos[1..], category, photo);
      assert photo in photos <==> photo == photos[0] || photo in photos[1..];
    }
  }

  /** And it keeps their order and number: it goes through the list photo by photo. */
  lemma {:induction false} FilterSplits(a: seq<Photo>, b: seq<Photo>, category: Category)
    ensures FilterByCategory(a + b, category) == FilterByCategory(a, category) + FilterByCategory(b, category)
  {
    if a == [] {
      assert a + b == b;
    } else {
      var tail := a[1..];
      assert (a + b)[1..] == tail + b;
      FilterSplits(tail, b, category);
    }
  }

  lemma {:induction false} FilterOne(photo: Photo, category: Category)
    ensures FilterByCategory([photo], category) == if InCategory(photo, category) then [photo] else []
  {
    assert [photo][1..] == [];
  }

  /** Looking up a name finds some photo exactly when one has it. */
  lemma {:induction false} FindIff(photos: seq<Photo>, name: string)
    ensures Find(photos, name).Some? <==> exists i :: 0 <= i < |photos| && photos[i].displayName == name
    ensures var found := Find(photos, name);
      found.Some? ==> found.value in photos && found.value.displayName == name
  {
    if photos != [] {
      FindIff(photos[1..], name);
      if i :| 1 <= i < |photos| && photos[i].displayName == name { assert photos[1..][i - 1].displayName == name; }
    }
  }

  lemma {:induction false} FindFirst(photos: seq<Photo>, i: nat)
    requires i < |photos| && forall j :: 0 <= j < i ==> photos[j].displayName != photos[i].displayName
    ensures Find(photos, photos[i].displayName) == Some(photos[i])
  {
    if i > 0 { FindFirst(photos[1..], i - 1); }
  }

  /** When no base name looks generated, looking up any listed name, from the flat list or any
      category, returns the very photo it was listed for. */
  lemma {:induction false} LookupReturnsListed(nodes: seq<PhotoNode>, photos: seq<Photo>, category: Category,
                                               photo: Photo)
    requires |photos| == |nodes|
    requires forall i :: 0 <= i < |nodes| ==> photos[i] == Photo(NameAt(Bases(nodes), i), nodes[i])
    requires NoBaseLooksGenerated(Bases(nodes))
    requires photo in photos || photo in FilterByCategory(photos, category)
    ensures Find(photos, photo.displayName) == Some(photo)
  {
    FilterMembers(photos, category, photo);
    DistinctIff(Bases(nodes));
    var i :| 0 <= i < |photos| && photos[i] == photo;
    FindFirst(photos, i);
  }

  lemma {:induction false} SameBaseDistinctNames(bases: seq<string>, i: nat, j: nat)
    requires i < j < |bases| && bases[i] == bases[j]
    ensures NameAt(bases, i) != NameAt(bases, j)
  {
    OccurrencePositive(bases, i);
    OccurrenceGrows(bases, i, j);
    if Occurrence(bases, i) == 1 {
      SuffixedDiffers(bases[j], Occurrence(bases, j));
    } else if NameAt(bases, i) == NameAt(bases, j) {
      SuffixedInjective(bases[i], Occurrence(bases, i), bases[j], Occurrence(bases, j));
    }
  }

  /** And only then: every listed name leads back to its photo exactly when no base name looks
      generated. */
  lemma {:induction false} LookupIff(nodes: seq<PhotoNode>, photos: seq<Photo>)
    requires |photos| == |nodes|
    requires forall i :: 0 <= i < |nodes| ==> photos[i] == Photo(NameAt(Bases(nodes), i), nodes[i])
    ensures (forall i :: 0 <= i < |photos| ==> Find(photos, photos[i].displayName) == Some(photos[i])) <==>
            NoBaseLooksGenerated(Bases(nodes))
  {
    var bases := Bases(nodes);
    DistinctIff(bases);
    if NoBaseLooksGenerated(bases) {
      forall i | 0 <= i < |photos|
        ensures Find(photos, photos[i].displayName) == Some(photos[i])
      {
        LookupReturnsListed(nodes, photos, Favorites, photos[i]);
      }
    } else {
      var i, j :| 0 <= i < j < |bases| && NameAt(bases, i) == NameAt(bases, j);
      if photos[i] == photos[j] {
        assert bases[i] == BaseOf(nodes[i]) == bases[j];
        SameBaseDistinctNames(bases, i, j);
      }
      assert photos[i].displayName == photos[j].displayName;
      assert !(Find(photos, photos[i].displayName) == Some(photos[i]) &&
               Find(photos, photos[j].displayName) == Some(photos[j]));
    }
  }
}
