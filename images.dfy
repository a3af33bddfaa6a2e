/** The image list of a listing, built by the card (`images`) and by the admin form
    (`existingImages`) with the same push-if-not-included loop. */
module Images {
  import opened Wrappers
  import opened Seqs

  /** `image_url` when it is truthy (present and not empty). */
  function Primary(imageUrl: Option<string>): seq<string> {
    if imageUrl.Some? && imageUrl.value != "" then [imageUrl.value] else []
  }

  /** `image_urls`, or nothing when it is null. */
  function Additional(imageUrls: Option<seq<string>>): seq<string> {
    if imageUrls.Some? then imageUrls.value else []
  }

  /** The truthiness test `url && ...` applied to each additional image. */
  function NonBlank(): string -> bool {
    u => u != ""
  }

  /** The image list: the primary image, then each non-empty additional image that is
      not yet listed, in order. */
  function ImageList(imageUrl: Option<string>, imageUrls: Option<seq<string>>): seq<string> {
    AppendNew(Primary(imageUrl), Filter(Additional(imageUrls), NonBlank()))
  }

  /** The loop itself: push `image_url` if truthy, then push each truthy additional URL
      that the list does not include yet. */
  method CollectImages(imageUrl: Option<string>, imageUrls: Option<seq<string>>)
    returns (images: seq<string>)
    ensures images == ImageList(imageUrl, imageUrls)
  {
    images := [];
    if imageUrl.Some? && imageUrl.value != "" {
      images := images + [imageUrl.value];
    }
    if imageUrls.Some? {
      var urls := imageUrls.value;
      var i := 0;
      while i < |urls|
        invariant 0 <= i <= |urls|
        invariant images == AppendNew(Primary(imageUrl), Filter(urls[..i], NonBlank()))
      {
        var url := urls[i];
        CollectStep(Primary(imageUrl), urls, i);
        if url != "" && url !in images {
          images := images + [url];
        }
        i := i + 1;
      }
      assert urls[..|urls|] == urls;
    }
  }

  /** One turn of the loop: the list for the first `i + 1` URLs is the list for the
      first `i` with URL `i` pushed when it is non-empty and not yet listed. */
  lemma CollectStep(p: seq<string>, urls: seq<string>, i: nat)
    requires i < |urls|
    ensures var prev := AppendNew(p, Filter(urls[..i], NonBlank()));
      AppendNew(p, Filter(urls[..i + 1], NonBlank()))
        == if urls[i] != "" && urls[i] !in prev then prev + [urls[i]] else prev
  {
    var url := urls[i];
    var kept := Filter(urls[..i], NonBlank());
    assert urls[..i + 1] == urls[..i] + [url];
    FilterSnoc(urls[..i], url, NonBlank());
    assert NonBlank()(url) == (url != "");
    if url != "" {
      AppendNewSnoc(p, kept, url);
      assert Filter(urls[..i + 1], NonBlank()) == kept + [url];
    } else {
      assert Filter(urls[..i + 1], NonBlank()) == kept;
    }
  }

  /** The image list has no duplicates; a truthy `image_url` comes first; it holds every
      non-empty URL of `image_url` and `image_urls` and nothing else; and the images
      after the primary one follow the order of first occurrence in `image_urls`. */
  lemma ImageListSpec(imageUrl: Option<string>, imageUrls: Option<seq<string>>)
    ensures NoDup(ImageList(imageUrl, imageUrls))
    ensures imageUrl.Some? && imageUrl.value != "" ==>
      |ImageList(imageUrl, imageUrls)| > 0 && ImageList(imageUrl, imageUrls)[0] == imageUrl.value
    ensures forall u :: u in ImageList(imageUrl, imageUrls) <==>
      u != "" && (imageUrl == Some(u) || u in Additional(imageUrls))
    ensures var images := ImageList(imageUrl, imageUrls);
      forall i, j :: |Primary(imageUrl)| <= i < j < |images| ==>
        images[i] in Additional(imageUrls) && images[j] in Additional(imageUrls) &&
        FirstIndex(Additional(imageUrls), images[i]) < FirstIndex(Additional(imageUrls), images[j])
  {
    var p := Primary(imageUrl);
    var urls := Additional(imageUrls);
    var kept := Filter(urls, NonBlank());
    var images := ImageList(imageUrl, imageUrls);
    AppendNewSpec(p, kept);
    forall u ensures u in kept <==> u in urls && u != "" {
      FilterMembers(urls, NonBlank(), u);
    }
    forall i, j | |p| <= i < j < |images|
      ensures images[i] in urls && images[j] in urls
      ensures FirstIndex(urls, images[i]) < FirstIndex(urls, images[j])
    {
      FilterFirstIndexOrder(urls, NonBlank(), images[i], images[j]);
    }
    if p != [] {
      assert images[..1] == p;
    }
  }
}
