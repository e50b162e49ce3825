/**
 * The request middleware for image paths: a request whose path looks like an
 * image, lies under `/images/`, and ends in one of three known file names is
 * redirected to a fixed hosted copy; every other request passes through.
 */
module ImageMiddleware {
  import opened Text

  datatype Decision = Redirect(url: string) | PassThrough

  const ImagesPrefix := "/images/"

  const LogoUrl := "https://hebbkx1anhila5yf.public.blob.vercel-storage.com/FinalDopeTM%20logo-0PU4p7hYokx1bFS0I1NX989g1LIg9b.png"
  const MascotUrl := "https://hebbkx1anhila5yf.public.blob.vercel-storage.com/mascot-dope-7qK3bNLPkqYD6KETodBDLALiMSsdtR.png"
  const BackgroundUrl := "https://hebbkx1anhila5yf.public.blob.vercel-storage.com/anastase-maragos-HyvE5SiKMUs-unsplash.jpg-xgpe6xD2l7g0jV4cubuJ24O6NZgOwj.jpeg"

  /** The path mentions one of the image extensions anywhere. */
  predicate LooksLikeImage(path: string) {
    Contains(path, ".png") || Contains(path, ".jpg") || Contains(path, ".jpeg")
    || Contains(path, ".svg") || Contains(path, ".ico")
  }

  /** The three file names with a hosted fallback. */
  predicate IsFallbackName(name: string) {
    name == "logo.png" || name == "mascot.png" || name == "background.png"
  }

  function FallbackUrl(name: string): string
    requires IsFallbackName(name)
  {
    if name == "logo.png" then LogoUrl else if name == "mascot.png" then MascotUrl else BackgroundUrl
  }

  /** The fallback map's own entries; a name without one passes through. */
  function Route(path: string): (d: Decision)
    ensures !LooksLikeImage(path) ==> d == PassThrough
    ensures !StartsWith(path, ImagesPrefix) ==> d == PassThrough
    // the extension test is implied by the file-name test, so a redirect happens exactly for these paths
    ensures d.Redirect? <==> StartsWith(path, ImagesPrefix) && IsFallbackName(LastSegment(path))
    ensures d.Redirect? ==> d.url == FallbackUrl(LastSegment(path))
  {
    FallbackNameIsImage(path);
    if LooksLikeImage(path) && StartsWith(path, ImagesPrefix) then
      var name := LastSegment(path);
      if name != "" && IsFallbackName(name) then Redirect(FallbackUrl(name)) else PassThrough
    else PassThrough
  }

  /** A path ending in a fallback file name mentions `.png`. */
  lemma FallbackNameIsImage(path: string)
    ensures IsFallbackName(LastSegment(path)) ==> LooksLikeImage(path)
  {
    var name := LastSegment(path);
    if IsFallbackName(name) {
      var at := |name| - 4;
      assert name[at..at + 4] == ".png";
      ContainsFromSuffix(path, name, ".png", at);
    }
  }

  /** The redirect goes to the file's hosted copy, also from nested directories. */
  lemma NestedPathsRedirect(dirs: string, name: string)
    requires IsFallbackName(name)
    ensures Route(ImagesPrefix + dirs + "/" + name) == Redirect(FallbackUrl(name))
  {
    var path := ImagesPrefix + dirs + "/" + name;
    assert path[..|ImagesPrefix|] == ImagesPrefix;
    LastSegmentAfterSlash(ImagesPrefix + dirs, name);
  }

  lemma {:induction false} LastSegmentAfterSlash(front: string, name: string)
    requires '/' !in name
    ensures LastSegment(front + "/" + name) == name
  {
    var path := front + "/" + name;
    if name != [] {
      var init := name[..|name| - 1];
      assert path[..|path| - 1] == front + "/" + init;
      assert name[|name| - 1] in name;
      assert '/' !in init by {
        forall i | 0 <= i < |init|
          ensures init[i] != '/'
        {
          assert init[i] == name[i];
          assert name[i] in name;
        }
      }
      LastSegmentAfterSlash(front, init);
      assert name == init + [name[|name| - 1]];
    }
  }

  /** What the middleware as written does: redirect, pass through, or throw while building the redirect. */
  datatype Outcome = Redirected(url: string) | Passed | Threw

  /**
   * The names every object literal inherits from `Object.prototype`. Looking one
   * up in the fallback map yields a function or object, which is truthy.
   */
  predicate IsInheritedName(name: string) {
    || name == "constructor" || name == "__proto__" || name == "hasOwnProperty" || name == "isPrototypeOf"
    || name == "propertyIsEnumerable" || name == "toString" || name == "toLocaleString" || name == "valueOf"
    || name == "__defineGetter__" || name == "__defineSetter__" || name == "__lookupGetter__"
    || name == "__lookupSetter__"
  }

  /** No inherited name is empty or a fallback name: they differ in their first character. */
  lemma InheritedNamesAreNotFallbacks(name: string)
    ensures IsInheritedName(name) ==> name != "" && !IsFallbackName(name)
  {
    if IsInheritedName(name) {
      assert name[0] in "c_hiptv";
    }
  }

  /**
   * The middleware with the fallback map as the plain object literal it is: an
   * inherited name passes the truthiness test, and the redirect then rejects the
   * inherited value because it is not a URL.
   */
  function RouteAsWritten(path: string): (o: Outcome)
    ensures o == Threw <==> LooksLikeImage(path) && StartsWith(path, ImagesPrefix) && IsInheritedName(LastSegment(path))
    ensures o.Redirected? ==> IsFallbackName(LastSegment(path)) && o.url == FallbackUrl(LastSegment(path))
  {
    InheritedNamesAreNotFallbacks(LastSegment(path));
    if LooksLikeImage(path) && StartsWith(path, ImagesPrefix) then
      var name := LastSegment(path);
      if name != "" && IsFallbackName(name) then Redirected(FallbackUrl(name))
      else if name != "" && IsInheritedName(name) then Threw
      else Passed
    else Passed
  }

  /** Off the inherited names, the middleware as written and `Route` decide alike. */
  lemma AsWrittenAgreesOffInheritedNames(path: string)
    requires !IsInheritedName(LastSegment(path))
    ensures Route(path) == PassThrough <==> RouteAsWritten(path) == Passed
    ensures Route(path).Redirect? ==> RouteAsWritten(path) == Redirected(Route(path).url)
  {
  }

  /** An image path under `/images/` whose last segment is `toString` makes the middleware as written throw. */
  lemma InheritedNameThrows()
    ensures RouteAsWritten("/images/logo.png/toString") == Threw
    ensures Route("/images/logo.png/toString") == PassThrough
  {
    var path := "/images/logo.png/toString";
    assert path == "/images/logo.png" + "/" + "toString";
    LastSegmentAfterSlash("/images/logo.png", "toString");
    assert path[..|ImagesPrefix|] == ImagesPrefix;
    assert OccursAt(path, ".png", 12);
  }
}
