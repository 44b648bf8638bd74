// The post table of src/data/blogPosts.js and its two accessors: `getPostBySlug`,
// a first-match search by id, and `getAllPosts`, which sorts the table itself,
// in place, newest first, with the stable `Array.prototype.sort`.
module Posts {
  import opened Wrappers

  /** A calendar date as written in a post ('YYYY-MM-DD'). */
  datatype Date = Date(year: int, month: int, day: int)

  datatype Post = Post(
    id: string,
    title: string,
    excerpt: string,
    date: Date,
    readTime: string,
    tags: seq<string>,
    image: string,
    content: string)

  /** Days from 1970-01-01 to the given proleptic Gregorian date (a negative
      count before it), as the date-only form of `new Date(...)` reads it: UTC
      midnight. Dafny's `/` and `%` with a positive divisor round down, which is
      what the era arithmetic needs. */
  function DaysFromCivil(d: Date): int {
    var y := if d.month <= 2 then d.year - 1 else d.year;
    var era := y / 400;
    var yoe := y - era * 400;
    var mp := (d.month + 9) % 12;
    var doy := (153 * mp + 2) / 5 + d.day - 1;
    var doe := yoe * 365 + yoe / 4 - yoe / 100 + doy;
    era * 146097 + doe - 719468
  }

  /** The time value of `new Date(date)` in milliseconds. */
  function Time(d: Date): int {
    DaysFromCivil(d) * 86400000
  }

  /** The comparator of `getAllPosts`: `new Date(b.date) - new Date(a.date)`;
      negative puts `a` first. */
  function Compare(a: Post, b: Post): int {
    Time(b.date) - Time(a.date)
  }

  // ---------------------------------------------------------------------------
  // getPostBySlug

  /** `blogPosts.find(post => post.id === slug)`. */
  function FindById(posts: seq<Post>, slug: string): (r: Option<Post>)
    ensures r.None? <==> forall i :: 0 <= i < |posts| ==> posts[i].id != slug
    ensures r.Some? ==> exists i :: 0 <= i < |posts| && posts[i] == r.value && r.value.id == slug &&
                                  (forall j :: 0 <= j < i ==> posts[j].id != slug)
  {
    if posts == [] then None
    else if posts[0].id == slug then Some(posts[0])
    else
      var r := FindById(posts[1..], slug);
      assert forall i :: 1 <= i < |posts| ==> posts[i] == posts[1..][i - 1];
      r
  }

  /** `FindById` is the search for the first matching index. */
  lemma FindByIdIsFirst(posts: seq<Post>, slug: string, i: nat)
    requires i < |posts| && posts[i].id == slug
    requires forall j :: 0 <= j < i ==> posts[j].id != slug
    ensures FindById(posts, slug) == Some(posts[i])
  {
    var r := FindById(posts, slug);
    var k :| 0 <= k < |posts| && posts[k] == r.value && r.value.id == slug &&
      forall j :: 0 <= j < k ==> posts[j].id != slug;
    if k < i {
    } else if i < k {
    }
  }

  // ---------------------------------------------------------------------------
  // getAllPosts

  /** Newest first: no post is followed by a newer one. */
  predicate Sorted(s: seq<Post>) {
    forall i, j :: 0 <= i < j < |s| ==> Time(s[j].date) <= Time(s[i].date)
  }

  /** Newest first is the order the comparator asks for: no pair of posts is
      out of order by its sign. */
  lemma SortedByComparator(s: seq<Post>)
    ensures Sorted(s) <==> forall i, j :: 0 <= i < j < |s| ==> Compare(s[i], s[j]) <= 0
  {
  }

  /** `x` alone when it has time `t`, otherwise nothing. */
  function Own(x: Post, t: int): seq<Post> {
    if Time(x.date) == t then [x] else []
  }

  /** The posts of `s` with time value `t`, in order. */
  function SameTime(s: seq<Post>, t: int): seq<Post> {
    if s == [] then []
    else Own(s[0], t) + SameTime(s[1..], t)
  }

  /** Puts `x` in front of the first post that is not newer than it. */
  function Insert(x: Post, s: seq<Post>): (r: seq<Post>)
    ensures |r| == |s| + 1
  {
    if s == [] || Time(s[0].date) <= Time(x.date) then [x] + s
    else [s[0]] + Insert(x, s[1..])
  }

  /** Insertion adds `x` and loses nothing. */
  lemma {:induction false} InsertPermutes(x: Post, s: seq<Post>)
    ensures multiset(Insert(x, s)) == multiset(s) + multiset{x}
    decreases |s|
  {
    if s != [] && Time(s[0].date) > Time(x.date) {
      InsertPermutes(x, s[1..]);
      assert s == [s[0]] + s[1..];
    }
  }

  /** A stable sort, newest first. Insertion of each post in front of the
      already sorted later posts of the same date keeps equal dates in input
      order. */
  function SortByDate(s: seq<Post>): (r: seq<Post>)
    ensures |r| == |s|
  {
    if s == [] then [] else Insert(s[0], SortByDate(s[1..]))
  }

  /** The sort is a permutation. */
  lemma {:induction false} SortPermutes(s: seq<Post>)
    ensures multiset(SortByDate(s)) == multiset(s)
    decreases |s|
  {
    if s != [] {
      SortPermutes(s[1..]);
      InsertPermutes(s[0], SortByDate(s[1..]));
      assert s == [s[0]] + s[1..];
    }
  }

  lemma {:induction false} InsertSorted(x: Post, s: seq<Post>)
    requires Sorted(s)
    ensures Sorted(Insert(x, s))
    decreases |s|
  {
    if s == [] || Time(s[0].date) <= Time(x.date) {
      ConsSorted(x, s);
    } else {
      var r := Insert(x, s[1..]);
      InsertSorted(x, s[1..]);
      InsertFront(x, s[1..]);
      assert |s| > 1 ==> Time(s[1].date) <= Time(s[0].date);
      ConsSorted(s[0], r);
    }
  }

  /** An insertion starts with the inserted post or with the old first post. */
  lemma InsertFront(x: Post, s: seq<Post>)
    ensures Insert(x, s)[0] == x || (s != [] && Insert(x, s)[0] == s[0])
  {
  }

  /** A post no older than the head of a sorted list can go in front of it. */
  lemma ConsSorted(a: Post, r: seq<Post>)
    requires Sorted(r) && (r != [] ==> Time(r[0].date) <= Time(a.date))
    ensures Sorted([a] + r)
  {
    var s := [a] + r;
    forall i, j | 0 <= i < j < |s| ensures Time(s[j].date) <= Time(s[i].date) {
      if i == 0 {
        assert s[j] == r[j - 1];
        assert Time(r[j - 1].date) <= Time(r[0].date);
      } else {
        assert s[i] == r[i - 1] && s[j] == r[j - 1];
      }
    }
  }

  /** `getAllPosts` orders the posts newest first. */
  lemma {:induction false} SortIsSorted(s: seq<Post>)
    ensures Sorted(SortByDate(s))
    decreases |s|
  {
    if s != [] {
      SortIsSorted(s[1..]);
      InsertSorted(s[0], SortByDate(s[1..]));
    }
  }

  lemma {:induction false} InsertSameTime(x: Post, s: seq<Post>, t: int)
    ensures SameTime(Insert(x, s), t) == Own(x, t) + SameTime(s, t)
    decreases |s|
  {
    if s == [] || Time(s[0].date) <= Time(x.date) {
      SameTimeCons(x, s, t);
    } else {
      InsertSameTime(x, s[1..], t);
      InsertSameTimeStep(x, s, t);
    }
  }

  /** The inductive step of `InsertSameTime`: `x` passes a newer head. */
  lemma InsertSameTimeStep(x: Post, s: seq<Post>, t: int)
    requires s != [] && Time(s[0].date) > Time(x.date)
    requires SameTime(Insert(x, s[1..]), t) == Own(x, t) + SameTime(s[1..], t)
    ensures SameTime(Insert(x, s), t) == Own(x, t) + SameTime(s, t)
  {
    var rest := s[1..];
    assert Insert(x, s) == [s[0]] + Insert(x, rest);
    SameTimeCons(s[0], Insert(x, rest), t);
    SameTimeCons(s[0], rest, t);
    assert [s[0]] + rest == s;
    AppendSwap(Own(s[0], t), Own(x, t), SameTime(rest, t));
  }

  lemma AppendSwap(a: seq<Post>, b: seq<Post>, c: seq<Post>)
    requires a == [] || b == []
    ensures a + (b + c) == b + (a + c)
  {
  }

  lemma SameTimeCons(a: Post, r: seq<Post>, t: int)
    ensures SameTime([a] + r, t) == Own(a, t) + SameTime(r, t)
  {
    assert ([a] + r)[1..] == r;
  }

  /** `getAllPosts` is stable: the posts of any one date keep their relative order. */
  lemma {:induction false} SortIsStable(s: seq<Post>, t: int)
    ensures SameTime(SortByDate(s), t) == SameTime(s, t)
    decreases |s|
  {
    if s != [] {
      SortIsStable(s[1..], t);
      InsertSameTime(s[0], SortByDate(s[1..]), t);
    }
  }

  lemma {:induction false} SameTimeEmpty(s: seq<Post>, k: nat)
    requires k < |s|
    ensures SameTime(s, Time(s[k].date)) != []
    decreases |s|
  {
    if k > 0 {
      SameTimeEmpty(s[1..], k - 1);
    }
  }

  lemma {:induction false} SameTimeHead(s: seq<Post>, t: int)
    requires SameTime(s, t) != []
    ensures exists k :: 0 <= k < |s| && Time(s[k].date) == t
    decreases |s|
  {
    if Time(s[0].date) != t {
      SameTimeHead(s[1..], t);
      var k :| 0 <= k < |s[1..]| && Time(s[1..][k].date) == t;
      assert s[k + 1] == s[1..][k];
    }
  }

  /** A stable sort newest first has only one possible result: two sorted
      sequences with the same posts per date, in the same order, are equal. So
      `SortByDate` is what every stable sort, the engine's own included, returns. */
  lemma {:induction false} StableSortUnique(a: seq<Post>, b: seq<Post>)
    requires Sorted(a) && Sorted(b)
    requires forall t :: SameTime(a, t) == SameTime(b, t)
    ensures a == b
    decreases |a|
  {
    if a != [] {
      SameTimeNonEmpty(a, b);
    }
    if b != [] {
      SameTimeNonEmpty(b, a);
    }
    if a != [] {
      var ta, tb := Time(a[0].date), Time(b[0].date);
      SameTimeEmpty(a, 0);
      SameTimeHead(b, ta);
      SameTimeEmpty(b, 0);
      SameTimeHead(a, tb);
      assert ta == tb;
      assert SameTime(a, ta) == [a[0]] + SameTime(a[1..], ta);
      assert SameTime(b, ta) == [b[0]] + SameTime(b[1..], ta);
      assert SameTime(a, ta) == SameTime(b, ta);
      assert a[0] == SameTime(a, ta)[0] == SameTime(b, ta)[0] == b[0];
      forall t ensures SameTime(a[1..], t) == SameTime(b[1..], t) {
        var front := Own(a[0], t);
        assert SameTime(a, t) == front + SameTime(a[1..], t);
        assert SameTime(b, t) == front + SameTime(b[1..], t);
        assert SameTime(a, t) == SameTime(b, t);
        assert SameTime(a[1..], t) == SameTime(a, t)[|front|..];
      }
      assert Sorted(a[1..]) by {
        forall i, j | 0 <= i < j < |a[1..]| ensures Time(a[1..][j].date) <= Time(a[1..][i].date) {
          assert a[1..][j] == a[j + 1] && a[1..][i] == a[i + 1];
        }
      }
      assert Sorted(b[1..]) by {
        forall i, j | 0 <= i < j < |b[1..]| ensures Time(b[1..][j].date) <= Time(b[1..][i].date) {
          assert b[1..][j] == b[j + 1] && b[1..][i] == b[i + 1];
        }
      }
      StableSortUnique(a[1..], b[1..]);
      assert a == [a[0]] + a[1..] && b == [b[0]] + b[1..];
    }
  }

  lemma SameTimeNonEmpty(a: seq<Post>, b: seq<Post>)
    requires a != []
    requires forall t :: SameTime(a, t) == SameTime(b, t)
    ensures b != []
  {
    SameTimeEmpty(a, 0);
    assert SameTime(b, Time(a[0].date)) != [];
  }

  /** Sorting an already sorted table changes nothing. */
  lemma SortIdempotent(s: seq<Post>)
    requires Sorted(s)
    ensures SortByDate(s) == s
  {
    SortIsSorted(s);
    forall t ensures SameTime(SortByDate(s), t) == SameTime(s, t) {
      SortIsStable(s, t);
    }
    StableSortUnique(SortByDate(s), s);
  }

  /** `getAllPosts()`: the array is sorted in place and returned, so the table
      afterwards and the result are the same sequence. */
  datatype Sorting = Sorting(table: seq<Post>, result: seq<Post>)

  function GetAllPosts(table: seq<Post>): (r: Sorting)
    ensures r.table == r.result
    ensures multiset(r.result) == multiset(table)
    ensures Sorted(r.result)
  {
    SortIsSorted(table);
    SortPermutes(table);
    var sorted := SortByDate(table);
    Sorting(sorted, sorted)
  }

  /** Because the sort works in place, a second call returns the order of the first. */
  lemma GetAllPostsTwice(table: seq<Post>)
    ensures GetAllPosts(GetAllPosts(table).table).result == GetAllPosts(table).result
  {
    SortIdempotent(GetAllPosts(table).table);
  }

  predicate UniqueIds(s: seq<Post>) {
    forall i, j :: 0 <= i < j < |s| ==> s[i].id != s[j].id
  }

  /** With distinct ids, the in-place sort does not change what a lookup finds. */
  lemma LookupAfterSort(table: seq<Post>, slug: string)
    requires UniqueIds(table)
    ensures FindById(GetAllPosts(table).table, slug) == FindById(table, slug)
  {
    var sorted := GetAllPosts(table).table;
    var before, after := FindById(table, slug), FindById(sorted, slug);
    assert before.Some? <==> after.Some? by {
      if before.Some? {
        var i :| 0 <= i < |table| && table[i] == before.value && before.value.id == slug;
        assert table[i] in multiset(sorted);
      }
      if after.Some? {
        var k :| 0 <= k < |sorted| && sorted[k] == after.value && after.value.id == slug;
        assert sorted[k] in multiset(table);
      }
    }
    if after.Some? {
      var k :| 0 <= k < |sorted| && sorted[k] == after.value && after.value.id == slug;
      assert sorted[k] in multiset(table);
      var m :| 0 <= m < |table| && table[m] == sorted[k];
      var i :| 0 <= i < |table| && table[i] == before.value && before.value.id == slug;
      assert i == m;
    }
  }

  // ---------------------------------------------------------------------------
  // The table as shipped: one post.

  /** The opening of the post body; the rest of the article is prose of the
      same kind and plays no part in any property below. */
  const FixtureContent: string :=
    "\n## ¿Qué es la Arquitectura de Software?\n\n"

  const Fundamentos: Post := Post(
    "fundamentos-arquitectura-software",
    "Fundamentos de Arquitectura de Software: Lo que Todo Desarrollador Debe Saber",
    "Aprende los conceptos esenciales para diseñar sistemas de software estructurados, desde el rol del arquitecto hasta los principales estilos arquitectónicos y principios SOLID.",
    Date(2025, 1, 27),
    "8 min",
    ["Arquitectura", "SOLID", "Diseño de Software"],
    "https://images.unsplash.com/photo-1518770660439-4636190af475?w=800",
    FixtureContent)

  const BlogPosts: seq<Post> := [Fundamentos]

  /** The post page for the shipped slug finds the shipped post. */
  lemma FixtureLookup()
    ensures FindById(BlogPosts, "fundamentos-arquitectura-software") == Some(Fundamentos)
  {
    FindByIdIsFirst(BlogPosts, "fundamentos-arquitectura-software", 0);
  }

  /** Any other slug finds nothing. */
  lemma FixtureUnknownSlug(slug: string)
    requires slug != "fundamentos-arquitectura-software"
    ensures FindById(BlogPosts, slug) == None
  {
  }

  /** The day count of the two dates of the example below, and the epoch. */
  lemma DayCounts()
    ensures DaysFromCivil(Date(1970, 1, 1)) == 0
    ensures DaysFromCivil(Date(2025, 1, 27)) == 20115
    ensures DaysFromCivil(Date(2024, 6, 1)) == 19875
  {
    assert 1969 / 400 == 4 && (153 * 10 + 2) / 5 == 306 && 369 / 4 == 92 && 369 / 100 == 3;
    assert 2024 / 400 == 5 && 24 / 4 == 6 && 24 / 100 == 0;
    assert (153 * 3 + 2) / 5 == 92;
  }

  /** A post of 2025-01-27 is listed before one of 2024-06-01, whatever the
      order in the table. */
  lemma NewerFirst(newer: Post, older: Post)
    requires newer.date == Date(2025, 1, 27) && older.date == Date(2024, 6, 1)
    ensures GetAllPosts([older, newer]).result == [newer, older]
    ensures GetAllPosts([newer, older]).result == [newer, older]
  {
    DayCounts();
    NewerFirstByTime(newer, older);
  }

  /** Of two posts of different dates the newer is listed first, whatever the
      order in the table. */
  lemma NewerFirstByTime(newer: Post, older: Post)
    requires Time(older.date) < Time(newer.date)
    ensures GetAllPosts([older, newer]).result == [newer, older]
    ensures GetAllPosts([newer, older]).result == [newer, older]
  {
    SortPair(older, newer);
    SortPair(newer, older);
  }

  /** Sorting two posts inserts the first into the second alone. */
  lemma SortPair(a: Post, b: Post)
    ensures GetAllPosts([a, b]).result == Insert(a, [b])
  {
    assert [a, b][1..] == [b];
    assert [b][1..] == [];
    assert SortByDate([b]) == Insert(b, []) == [b];
  }
}
