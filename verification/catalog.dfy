/**
 The image list of the configuration form: `GetImages` asks the engine for
 its images and keeps the repository name of every tag, `doFillImageItems`
 turns the result into the items of the drop-down list, and
 `doCheckIpAddress` validates the host field.

 The JSON decoding is not modelled: the input is what the decoder yields,
 an array (possibly `null`) of image records (possibly `null`) whose
 `RepoTags` array (possibly `null`) holds tags (possibly `null`).
 */
module Catalog {
  import opened Values
  import opened Splitting
  import Formatting
  import Launcher

  /** One decoded image: its `RepoTags` array. A record whose JSON has no
      `RepoTags` key keeps the field's initial value, a one-element array
      holding `null`. */
  datatype ImageRecord = ImageRecord(repoTags: Nullable<seq<JString>>)

  /** What the engine does with the list request: the round trip or the
      decoding throws, or the decoder yields an array. */
  datatype ListReply = ListFails | ListDecoded(images: Nullable<seq<Nullable<ImageRecord>>>)

  /** The array `GetImages` returns or its exception, and the URL it
      requested, if it got that far. */
  datatype Listing = Listing(result: Try<seq<JString>>, request: Option<string>)

  /** `FormValidation.ok()` or `FormValidation.error(message)`. */
  datatype Validation = Ok | Error(message: string)

  /** The text of `tag` before its first colon, the whole tag if it has none. */
  predicate IsNameOf(name: string, tag: string) {
    name <= tag && ':' !in name && (|name| < |tag| ==> tag[|name|] == ':')
  }

  /** Index of the first colon of `s`, or `|s|` if it has none. */
  function FirstColon(s: string, from: nat): (c: nat)
    requires from <= |s|
    ensures from <= c <= |s|
    ensures forall i :: from <= i < c ==> s[i] != ':'
    ensures c < |s| ==> s[c] == ':'
    decreases |s| - from
  {
    if from == |s| || s[from] == ':' then from else FirstColon(s, from + 1)
  }

  /** `repoTag.split(":")` and, if the array is not empty, its first
      element. Only a tag made of colons alone splits to an empty array. */
  function TagName(tag: string): (r: Option<string>)
    ensures r.None? <==> |tag| > 0 && forall i :: 0 <= i < |tag| ==> tag[i] == ':'
    ensures r.Some? ==> IsNameOf(r.value, tag)
  {
    var parts := Split(tag, Colon);
    CharSplitEmptyIff(tag, ':');
    if |parts| > 0 then
      var c := FirstColon(tag, 0);
      SplitHead(tag, Colon, c);
      assert ':' !in tag[..c] by {
        forall k | 0 <= k < c
          ensures tag[..c][k] != ':'
        {
        }
      }
      Some(parts[0])
    else None
  }

  /** The usual tag `name:version` gives `name`. */
  lemma NameOfTag(name: string, version: string)
    requires name != "" && ':' !in name
    ensures TagName(name + ":" + version) == Some(name)
  {
    var tag := name + ":" + version;
    assert tag[..|name|] == name;
    assert tag[|name|] == ':';
    assert tag[0] == name[0] && name[0] in name;
    var r := TagName(tag);
    assert r.Some?;
    var m := r.value;
    assert m == tag[..|name|];
  }

  /** `s` followed by the result of `t`, when both return; the first
      exception otherwise. */
  function Then(s: Try<seq<string>>, t: Try<seq<string>>): (r: Try<seq<string>>)
    ensures r.Returned? <==> s.Returned? && t.Returned?
  {
    if s.Returned? && t.Returned? then Returned(s.value + t.value) else Threw
  }

  lemma ThenAssoc(a: Try<seq<string>>, b: Try<seq<string>>, c: Try<seq<string>>)
    ensures Then(Then(a, b), c) == Then(a, Then(b, c))
  {
    if a.Returned? && b.Returned? && c.Returned? {
      assert a.value + b.value + c.value == a.value + (b.value + c.value);
    }
  }

  /** What the inner loop adds for one tag: the part before the first colon,
      nothing for a tag of colons alone, and an exception for `null`. */
  function TagNames(tag: JString): Try<seq<string>> {
    match tag
    case Null => Threw
    case NonNull(t) => Returned(match TagName(t) case None => [] case Some(n) => [n])
  }

  /** The names the inner loop adds for one `RepoTags` array, in order. */
  function TagsNames(tags: seq<JString>): Try<seq<string>> {
    if |tags| == 0 then Returned([]) else Then(TagNames(tags[0]), TagsNames(tags[1..]))
  }

  /** What one pass of the outer loop adds: nothing for an image whose
      `RepoTags` is `null`; a `null` image throws. */
  function ImageNames(image: Nullable<ImageRecord>): Try<seq<string>> {
    match image
    case Null => Threw
    case NonNull(img) => if img.repoTags.Null? then Returned([]) else TagsNames(img.repoTags.value)
  }

  /** The names the outer loop collects, in order. */
  function ImagesNames(images: seq<Nullable<ImageRecord>>): Try<seq<string>> {
    if |images| == 0 then Returned([]) else Then(ImageNames(images[0]), ImagesNames(images[1..]))
  }

  /** A `null` array throws as soon as the loop starts. */
  function NamesOf(images: Nullable<seq<Nullable<ImageRecord>>>): Try<seq<string>> {
    match images
    case Null => Threw
    case NonNull(xs) => ImagesNames(xs)
  }

  lemma {:induction false} TagsNamesAppend(xs: seq<JString>, ys: seq<JString>)
    ensures TagsNames(xs + ys) == Then(TagsNames(xs), TagsNames(ys))
    decreases |xs|
  {
    if |xs| == 0 {
      assert xs + ys == ys;
      assert Then(Returned([]), TagsNames(ys)) == TagsNames(ys) by {
        if TagsNames(ys).Returned? {
          assert [] + TagsNames(ys).value == TagsNames(ys).value;
        }
      }
    } else {
      assert (xs + ys)[0] == xs[0];
      assert (xs + ys)[1..] == xs[1..] + ys;
      TagsNamesAppend(xs[1..], ys);
      ThenAssoc(TagNames(xs[0]), TagsNames(xs[1..]), TagsNames(ys));
    }
  }

  lemma {:induction false} ImagesNamesAppend(xs: seq<Nullable<ImageRecord>>, ys: seq<Nullable<ImageRecord>>)
    ensures ImagesNames(xs + ys) == Then(ImagesNames(xs), ImagesNames(ys))
    decreases |xs|
  {
    if |xs| == 0 {
      assert xs + ys == ys;
      assert Then(Returned([]), ImagesNames(ys)) == ImagesNames(ys) by {
        if ImagesNames(ys).Returned? {
          assert [] + ImagesNames(ys).value == ImagesNames(ys).value;
        }
      }
    } else {
      assert (xs + ys)[0] == xs[0];
      assert (xs + ys)[1..] == xs[1..] + ys;
      ImagesNamesAppend(xs[1..], ys);
      ThenAssoc(ImageNames(xs[0]), ImagesNames(xs[1..]), ImagesNames(ys));
    }
  }

  lemma TagsNamesSnoc(xs: seq<JString>, x: JString)
    ensures TagsNames(xs + [x]) == Then(TagsNames(xs), TagNames(x))
  {
    TagsNamesAppend(xs, [x]);
    assert [x][1..] == [];
    if TagNames(x).Returned? {
      assert TagNames(x).value + [] == TagNames(x).value;
    }
  }

  lemma ImagesNamesSnoc(xs: seq<Nullable<ImageRecord>>, x: Nullable<ImageRecord>)
    ensures ImagesNames(xs + [x]) == Then(ImagesNames(xs), ImageNames(x))
  {
    ImagesNamesAppend(xs, [x]);
    assert [x][1..] == [];
    if ImageNames(x).Returned? {
      assert ImageNames(x).value + [] == ImageNames(x).value;
    }
  }

  /** The two loops of `GetImages`, written as loops: an exception in either
      ends the listing. */
  method CollectNames(images: Nullable<seq<Nullable<ImageRecord>>>) returns (r: Try<seq<string>>)
    ensures r == NamesOf(images)
  {
    if images.Null? {
      return Threw;
    }
    var xs := images.value;
    var names: seq<string> := [];
    var i := 0;
    while i < |xs|
      invariant 0 <= i <= |xs|
      invariant ImagesNames(xs[..i]) == Returned(names)
    {
      assert xs[..i + 1] == xs[..i] + [xs[i]];
      ImagesNamesSnoc(xs[..i], xs[i]);
      var here: Try<seq<string>> := Threw;
      if xs[i].NonNull? {
        here := CollectTagNames(xs[i].value.repoTags);
      }
      if here.Threw? {
        ImagesNamesAppend(xs[..i + 1], xs[i + 1..]);
        assert xs[..i + 1] + xs[i + 1..] == xs;
        return Threw;
      }
      names := names + here.value;
      i := i + 1;
    }
    assert xs[..i] == xs;
    return Returned(names);
  }

  /** The inner loop: the names of one image's tags, in order; a null list
      adds nothing and a null tag throws. */
  method CollectTagNames(tags: Nullable<seq<JString>>) returns (r: Try<seq<string>>)
    ensures tags.Null? ==> r == Returned([])
    ensures tags.NonNull? ==> r == TagsNames(tags.value)
  {
    if tags.Null? {
      return Returned([]);
    }
    var ts := tags.value;
    var here: seq<string> := [];
    var j := 0;
    while j < |ts|
      invariant 0 <= j <= |ts|
      invariant TagsNames(ts[..j]) == Returned(here)
    {
      assert ts[..j + 1] == ts[..j] + [ts[j]];
      TagsNamesSnoc(ts[..j], ts[j]);
      if ts[j].Null? {
        TagsNamesAppend(ts[..j + 1], ts[j + 1..]);
        assert ts[..j + 1] + ts[j + 1..] == ts;
        return Threw;
      }
      var parts := Split(ts[j].value, Colon);
      if |parts| > 0 {
        assert TagNames(ts[j]) == Returned([parts[0]]);
        here := here + [parts[0]];
      } else {
        assert TagNames(ts[j]) == Returned([]);
        assert here + [] == here;
      }
      j := j + 1;
    }
    assert ts[..j] == ts;
    return Returned(here);
  }

  /** An image or a tag that makes the loops throw. */
  predicate Unreadable(x: Nullable<ImageRecord>) {
    x.Null? || (x.value.repoTags.NonNull? && Null in x.value.repoTags.value)
  }

  lemma {:induction false} TagsThrowIff(tags: seq<JString>)
    ensures TagsNames(tags).Threw? <==> Null in tags
    decreases |tags|
  {
    if |tags| > 0 {
      TagsThrowIff(tags[1..]);
      assert tags == [tags[0]] + tags[1..];
    }
  }

  /** The listing throws exactly when the array is `null`, or one of its
      images is `null`, or one of its tags is `null`. */
  lemma {:induction false} ImagesThrowIff(images: seq<Nullable<ImageRecord>>)
    ensures ImagesNames(images).Threw? <==> exists i :: 0 <= i < |images| && Unreadable(images[i])
    decreases |images|
  {
    if |images| > 0 {
      ImagesThrowIff(images[1..]);
      if images[0].NonNull? && images[0].value.repoTags.NonNull? {
        TagsThrowIff(images[0].value.repoTags.value);
      }
      if exists i :: 1 <= i < |images| && Unreadable(images[i]) {
        var i :| 1 <= i < |images| && Unreadable(images[i]);
        assert Unreadable(images[1..][i - 1]);
      }
      if exists i :: 0 <= i < |images[1..]| && Unreadable(images[1..][i]) {
        var i :| 0 <= i < |images[1..]| && Unreadable(images[1..][i]);
        assert Unreadable(images[i + 1]);
      }
    }
  }

  /** The tags of all images, in order, skipping images whose `RepoTags`
      is `null`. */
  function AllTags(images: seq<Nullable<ImageRecord>>): seq<JString> {
    if |images| == 0 then []
    else
      var here := if images[0].NonNull? && images[0].value.repoTags.NonNull? then images[0].value.repoTags.value else [];
      here + AllTags(images[1..])
  }

  /** Without `null` images the listing is the names of all tags taken in
      order, one image after the other: nothing is reordered or merged. */
  lemma {:induction false} ImagesNamesFlatten(images: seq<Nullable<ImageRecord>>)
    requires forall i :: 0 <= i < |images| ==> images[i].NonNull?
    ensures ImagesNames(images) == TagsNames(AllTags(images))
    decreases |images|
  {
    if |images| > 0 {
      ImagesNamesFlatten(images[1..]);
      var here := if images[0].value.repoTags.NonNull? then images[0].value.repoTags.value else [];
      TagsNamesAppend(here, AllTags(images[1..]));
      assert ImageNames(images[0]) == TagsNames(here);
    }
  }

  /** Every collected name is the part before the first colon of one of the
      tags, and there is at most one name per tag. */
  lemma {:induction false} TagsNamesSound(tags: seq<JString>)
    requires TagsNames(tags).Returned?
    ensures |TagsNames(tags).value| <= |tags|
    ensures forall n :: n in TagsNames(tags).value ==> exists t :: NonNull(t) in tags && IsNameOf(n, t)
    decreases |tags|
  {
    if |tags| > 0 {
      TagsNamesSound(tags[1..]);
      var rest := TagsNames(tags[1..]).value;
      forall n | n in TagsNames(tags).value
        ensures exists t :: NonNull(t) in tags && IsNameOf(n, t)
      {
        if n in rest {
          var t :| NonNull(t) in tags[1..] && IsNameOf(n, t);
          assert NonNull(t) in tags;
        } else {
          assert IsNameOf(n, tags[0].value);
        }
      }
    }
  }

  /** A listing of three images, for any two colon-free names `n1` and
      `n2`: one tagged `n1:v1` and `n1:v2` (say `nginx:latest` and
      `nginx:1.21`), one whose `RepoTags` is `null`, and one tagged `n2:v3`
      (say `redis:6`). The names come out in order, `n1` twice (they are not
      de-duplicated), then `n2`. */
  lemma ListingExample(n1: string, v1: string, v2: string, n2: string, v3: string)
    requires n1 != "" && ':' !in n1 && n2 != "" && ':' !in n2
    ensures ImagesNames([NonNull(ImageRecord(NonNull([NonNull(n1 + ":" + v1), NonNull(n1 + ":" + v2)]))),
                         NonNull(ImageRecord(Null)),
                         NonNull(ImageRecord(NonNull([NonNull(n2 + ":" + v3)])))])
            == Returned([n1, n1, n2])
  {
    var x := NonNull(ImageRecord(NonNull([NonNull(n1 + ":" + v1), NonNull(n1 + ":" + v2)])));
    var y := NonNull(ImageRecord(Null));
    var z := NonNull(ImageRecord(NonNull([NonNull(n2 + ":" + v3)])));
    TwoTagsOneName(n1, v1, v2);
    NameOfTag(n2, v3);
    OneTag(NonNull(n2 + ":" + v3));
    ThreeImages(x, y, z);
    assert [n2] + [] == [n2];
    assert [n1, n1] + ([] + [n2]) == [n1, n1, n2];
  }

  lemma ThreeImages(x: Nullable<ImageRecord>, y: Nullable<ImageRecord>, z: Nullable<ImageRecord>)
    ensures ImagesNames([x, y, z]) == Then(ImageNames(x), Then(ImageNames(y), Then(ImageNames(z), Returned([]))))
  {
    assert [z][1..] == [];
    assert ImagesNames([z]) == Then(ImageNames(z), Returned([]));
    assert [y, z][1..] == [z];
    assert ImagesNames([y, z]) == Then(ImageNames(y), ImagesNames([z]));
    assert [x, y, z][1..] == [y, z];
  }

  /** Two tags of one name give that name twice. */
  lemma TwoTagsOneName(n: string, v1: string, v2: string)
    requires n != "" && ':' !in n
    ensures TagsNames([NonNull(n + ":" + v1), NonNull(n + ":" + v2)]) == Returned([n, n])
  {
    var a := [NonNull(n + ":" + v1), NonNull(n + ":" + v2)];
    NameOfTag(n, v1);
    NameOfTag(n, v2);
    TagsNamesAppend([a[0]], [a[1]]);
    assert [a[0]] + [a[1]] == a;
    OneTag(a[0]);
    OneTag(a[1]);
    assert [n] + [n] == [n, n];
  }

  lemma OneTag(x: JString)
    ensures TagsNames([x]) == TagNames(x)
  {
    assert [x][1..] == [];
    if TagNames(x).Returned? {
      assert TagNames(x).value + [] == TagNames(x).value;
    }
  }

  /** `ArrayList.toArray(a)` for a list `list`: when the list fits in `a`,
      its elements are copied to the front of `a` and, if `a` has room to
      spare, the slot right after them is set to `null`, the rest of `a`
      left as it was; when it does not fit, a fresh array of the list's
      size holds the elements. */
  function ListToArray(list: seq<JString>, a: seq<JString>): (r: seq<JString>)
    ensures |list| <= |a| ==> |r| == |a|
    ensures |list| > |a| ==> |r| == |list|
    ensures forall i :: 0 <= i < |list| ==> r[i] == list[i]
    ensures |list| < |a| ==> r[|list|] == Null
    ensures forall i :: |list| < i < |a| ==> r[i] == a[i]
  {
    if |list| < |a| then list + [Null] + a[|list| + 1..] else list
  }

  /** `imageNames.toArray(new String[1])`, the list holding the names. */
  function ToArray(names: seq<string>): (a: seq<JString>)
    ensures |names| == 0 ==> a == [Null]
    ensures |names| > 0 ==> |a| == |names| && forall i :: 0 <= i < |a| ==> a[i] == NonNull(names[i])
  {
    ListToArray(NamesArray(names), [Null])
  }

  /** Passing a one-element array: an empty list gives back that array,
      whose one slot is now `null`; any other list gives a fresh array of
      exactly its names. */
  lemma {:induction false} OneSlotArray(names: seq<string>)
    ensures names == [] ==> ToArray(names) == [Null]
    ensures names != [] ==> ToArray(names) == NamesArray(names)
  {
  }

  /** `String.format("http://%s/images/json", ipAddress)`. */
  function ImagesUrl(host: string): (u: string)
    ensures u == "http://" + host + "/images/json"
  {
    Formatting.FormatOne("http://", "/images/json", NonNull(host))
  }

  /** `GetImages(ipAddress)`: a null host throws before any request;
      otherwise one GET, and the names of the decoded images. */
  function GetImages(host: JString, reply: ListReply): (r: Listing)
    ensures host.Null? ==> r == Listing(Threw, None)
    ensures host.NonNull? ==> r.request == Some("http://" + host.value + "/images/json")
    ensures r.result.Returned? <==> host.NonNull? && reply.ListDecoded? && NamesOf(reply.images).Returned?
    ensures r.result.Returned? ==> r.result.value == ToArray(NamesOf(reply.images).value)
  {
    match host
    case Null => Listing(Threw, None)
    case NonNull(h) =>
      var request := Some(ImagesUrl(h));
      match reply
      case ListFails => Listing(Threw, request)
      case ListDecoded(images) =>
        match NamesOf(images)
        case Threw => Listing(Threw, request)
        case Returned(names) => Listing(Returned(ToArray(names)), request)
  }

  /** Only `null` is refused: the empty host is asked for its images, at a
      URL with an empty host part. */
  lemma EmptyHostIsQueried(host: string, reply: ListReply)
    requires host == ""
    ensures GetImages(NonNull(host), reply).request == Some("http:///images/json")
  {
    assert "http://" + host + "/images/json" == "http:///images/json";
  }

  /** `doFillImageItems(ipaddress)`: the items of the drop-down list, one
      per element of the array; no item at all for a null host or when the
      listing throws. */
  function FillImageItems(host: JString, reply: ListReply): (items: seq<JString>)
    ensures items == [] <==> host.Null? || GetImages(host, reply).result.Threw?
    ensures items != [] ==> items == GetImages(host, reply).result.value
  {
    if host.Null? then []
    else
      match GetImages(host, reply).result
      case Threw => []
      case Returned(a) => a
  }

  /** An engine with no tagged image fills the list with one `null` item. */
  lemma NoTaggedImageGivesNullItem(host: string, images: seq<Nullable<ImageRecord>>)
    requires forall i :: 0 <= i < |images| ==> images[i].NonNull? && images[i].value.repoTags.Null?
    ensures FillImageItems(NonNull(host), ListDecoded(NonNull(images))) == [Null]
  {
    NoTagsNoNames(images);
  }

  lemma {:induction false} NoTagsNoNames(images: seq<Nullable<ImageRecord>>)
    requires forall i :: 0 <= i < |images| ==> images[i].NonNull? && images[i].value.repoTags.Null?
    ensures ImagesNames(images) == Returned([])
    decreases |images|
  {
    if |images| > 0 {
      NoTagsNoNames(images[1..]);
      assert ImageNames(images[0]) == Returned([]);
      var none: seq<string> := [];
      assert none + none == none;
    }
  }

  /** The names as an array of `String`s: one non-null element per name,
      and no element at all when there is no name. */
  function NamesArray(names: seq<string>): (a: seq<JString>)
    ensures |a| == |names|
    ensures forall i :: 0 <= i < |a| ==> a[i] == NonNull(names[i])
  {
    seq(|names|, i requires 0 <= i < |names| => NonNull(names[i]))
  }

  /** The items the list is evidently meant to show: one per name, none
      when there is no name or the listing throws. */
  function FillImageItemsIntended(host: JString, reply: ListReply): (items: seq<JString>)
    ensures Null !in items
    ensures host.NonNull? && reply.ListDecoded? && NamesOf(reply.images).Returned? ==>
      |items| == |NamesOf(reply.images).value|
      && forall i :: 0 <= i < |items| ==> items[i] == NonNull(NamesOf(reply.images).value[i])
    ensures !(host.NonNull? && reply.ListDecoded? && NamesOf(reply.images).Returned?) ==> items == []
  {
    if host.NonNull? && reply.ListDecoded? && NamesOf(reply.images).Returned?
    then NamesArray(NamesOf(reply.images).value)
    else []
  }

  /** The two agree whenever there is at least one name. */
  lemma IntendedAgreesWithSomeNames(host: JString, reply: ListReply)
    requires host.NonNull? && reply.ListDecoded? && NamesOf(reply.images).Returned?
    requires NamesOf(reply.images).value != []
    ensures FillImageItemsIntended(host, reply) == FillImageItems(host, reply)
  {
  }

  /** `doCheckIpAddress(value)`: an error for the empty string, ok for any
      other; `value.length()` throws on `null`. */
  function CheckIpAddress(value: JString): (r: Try<Validation>)
    ensures r == Threw <==> value.Null?
    ensures r == Returned(Error("Please set a IP Address")) <==> value == NonNull("")
    ensures r == Returned(Ok) <==> value.NonNull? && |value.value| > 0
  {
    match value
    case Null => Threw
    case NonNull(v) => if |v| == 0 then Returned(Error("Please set a IP Address")) else Returned(Ok)
  }

  /** The validator only shows a message; nothing else consults it. The
      host it flags is still sent both requests that use it: the creation
      POST and the image listing, each to a URL with an empty host part. */
  lemma EmptyHostFlaggedYetUsed(host: string, image: string, engine: Launcher.Engine, reply: ListReply)
    requires host == ""
    ensures CheckIpAddress(NonNull(host)) == Returned(Error("Please set a IP Address"))
    ensures Launcher.CreateContainer(NonNull(host), NonNull(image), engine).trace[0].url == "http:///containers/create"
    ensures GetImages(NonNull(host), reply).request == Some("http:///images/json")
  {
    assert "http://" + host + "/containers/create" == "http:///containers/create";
    EmptyHostIsQueried(host, reply);
  }
}
