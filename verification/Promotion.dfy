/**
 Promoting a prevalidated clone (internal/drivers/deploy.go, AppPrevalidatedRollingDriver): the blue app is
 the stable one, the green app a clone of it with the new image.
 */
module Promotion {
  import opened AppModel
  import opened DeployTracking
  import opened ServiceImages
  import opened Wrappers

  /** What the reported current image of an app is: that of its first service. */
  function FirstImage(app: Option<Slots>): Option<Image> {
    if app.None? || app.value.services.None? || app.value.services.value == [] then None
    else app.value.services.value[0]
  }

  class AppPrevalidatedRollingDriver {
    const blueID: string
    var greenID: string
    var stableCheck: bool
    var blue: AppDeployDriver
    var green: AppDeployDriver?

    constructor (blueID: string)
      ensures this.blueID == blueID && greenID == "" && !stableCheck && fresh(blue) && green == null
      ensures blue.appID == blueID && !blue.waiting && blue.trail == [] && blue.target == ""
    {
      var driver := new AppDeployDriver(blueID);
      this.blueID, greenID, stableCheck, blue, green := blueID, "", false, driver, null;
    }

    ghost predicate Valid(previousOf: string -> string)
      reads this, blue, green
    {
      && blue.appID == blueID && blue.Valid(previousOf)
      && (stableCheck ==> blue.waiting)
      && (greenID != "" ==> green != null)
      && (green != null ==> green != blue && green.appID == greenID && green.Valid(previousOf) && !green.waiting)
    }

    method CurrentImage(server: Apps, appID: string) returns (image: Option<string>, ghost ev: seq<Event>)
      modifies server`log
      ensures server.log == old(server.log) + ev && |ev| == 1 && (ev[0].AppRead? || ev[0].ReadLost?) &&
              ev[0].of == appID
      ensures image.Some? <==> ev[0].AppRead? && FirstImage(ev[0].app).Some?
      ensures image.Some? ==> image.value == FlatRef(FirstImage(ev[0].app).value)
    {
      var app;
      app, ev := server.Get(appID);
      if app.Lost? || FirstImage(app.value).None? {
        return None, ev;
      }
      image := Some(FlatRef(FirstImage(app.value).value));
    }

    /** An update that needs no clone goes to the blue app. */
    method Update(server: Apps, image: string) returns (ok: bool, ghost ev: seq<Event>)
      requires Valid(server.previousOf) && NonePrecedesItself(server.previousOf)
      modifies blue, server`log
      ensures Valid(server.previousOf) && server.log == old(server.log) + ev
      ensures ok <==> |ev| == 3 && ev[2].UpdateSent? && ev[2].answer.Answered?
      ensures ok ==> ev[2].of == blueID && blue.waiting && Apart(blue.State()) && Started(ev, blue.State())
    {
      hide Started, Trail, NonePrecedesItself, WithImage, ImageRepo, ImageTag;
      ok, ev := blue.Update(server, image);
    }

    /** A clone of the blue app with the image; checks go to it until traffic is switched. */
    method CreateGreen(server: Apps, image: string) returns (ok: bool, ghost ev: seq<Event>)
      requires Valid(server.previousOf)
      modifies this`greenID, this`stableCheck, this`green, server`log
      ensures Valid(server.previousOf) && server.log == old(server.log) + ev
      ensures ok <==> |ev| == 3 && ev[2].AppCreated? && ev[2].made.Some?
      ensures |ev| == 1 ==> ev[0] == Checked(false)
      ensures |ev| == 2 ==> !ShowsServices(ev[1])
      ensures |ev| == 3 ==>
                && ShowsServices(ev[1]) && ev[1].of == blueID
                && ev[2].AppCreated? &&
                   ev[2].sent == WithImage(ev[1].app.value.services.value, ImageRepo(image), ImageTag(image))
      ensures ok ==> Some(greenID) == ev[2].made && !stableCheck && green != null && fresh(green) && !green.waiting
      ensures !ok ==> greenID == old(greenID) && stableCheck == old(stableCheck) && green == old(green)
    {
      hide Trail, WithImage, ImageRepo, ImageTag, FlatRef;
      var present;
      ghost var more;
      present, ev := server.Check();
      if !present {
        return false, ev;
      }
      var app;
      app, more := server.Get(blueID);
      ev := ev + more;
      if app.Lost? || app.value.None? || app.value.value.services.None? {
        return false, ev;
      }
      var services := SetImages(app.value.value.services.value, image);
      var made;
      made, more := server.CreateApp(services);
      ev := ev + more;
      if made.None? {
        return false, ev;
      }
      greenID, stableCheck := made.value, false;
      green := new AppDeployDriver(made.value);
      TrailStarts("", server.previousOf);
      ok := true;
    }

    /** The full cutover: the blue app is updated to what the green app runs. */
    method SwitchTraffic(server: Apps) returns (ok: bool, ghost ev: seq<Event>)
      requires Valid(server.previousOf) && NonePrecedesItself(server.previousOf)
      modifies this`stableCheck, blue, server`log
      ensures Valid(server.previousOf) && server.log == old(server.log) + ev
      ensures !ok ==> stableCheck == old(stableCheck)
      ensures ok <==> |ev| == 4 && ev[3].UpdateSent? && ev[3].answer.Answered?
      ensures greenID != "" ==> ev != [] && (|ev| == 1 ==> !(ev[0].AppRead? && FirstImage(ev[0].app).Some?))
      ensures |ev| == 2 ==> ev[1] == Checked(false)
      ensures |ev| == 3 ==> !ShowsServices(ev[2])
      ensures ok ==> stableCheck && greenID != "" && blue.waiting && Apart(blue.State())
      ensures ok ==> |ev| == 4 && ev[0].AppRead? && ev[0].of == greenID && FirstImage(ev[0].app).Some?
      ensures ok ==> Promoted(ev, blueID)
    {
      hide Promoted, Promotable, NonePrecedesItself, Started, Trail, SplitImageRef, ImageRepo, ImageTag, FlatRef,
           WithImage;
      ev := [];
      if greenID == "" {
        return false, ev;
      }
      var image;
      image, ev := CurrentImage(server, greenID);
      if image.None? {
        return false, ev;
      }
      ghost var more;
      ok, more := blue.Update(server, image.value);
      ev := ev + more;
      if ok {
        stableCheck := true;
        PromotedByUpdate(ev, blueID, image.value);
      }
    }

    /** Checks go to the green app until traffic is switched, and to the blue one from then on. */
    method HealthCheck(server: Apps) returns (ok: bool, ghost ev: seq<Event>)
      requires Valid(server.previousOf) && NonePrecedesItself(server.previousOf)
      modifies blue, green, server`log
      ensures Valid(server.previousOf) && server.log == old(server.log) + ev
      ensures ev != [] && (ev[0].AppRead? || ev[0].ReadLost?)
      ensures ev[0].of == if greenID != "" && !stableCheck then greenID else blueID
      ensures ok && greenID != "" && !stableCheck ==>
                ev[0].AppRead? && Deployed(ev[0].app)
      ensures ok && stableCheck ==> exists d ::
                && SeenIn(ev, d) && d.phase == Active && d.id == blue.target && d.id != ""
                && (old(Apart(blue.State())) ==> d.id != blue.previousActive)
      ensures !ok && greenID != "" && !stableCheck ==>
                ev[|ev| - 1] == Checked(false) || ev[0].ReadLost? || !Deployed(ev[0].app)
      ensures !ok && stableCheck ==> NotYet(ev, old(blue.State()))
      ensures blue.previousActive == old(blue.previousActive)
      ensures old(Apart(blue.State())) ==> Apart(blue.State())
    {
      hide Decided, SeenIn, Trail, NonePrecedesItself;
      if greenID != "" && !stableCheck {
        ok, ev := green.HealthCheck(server);
      } else {
        ok, ev := blue.HealthCheck(server);
      }
    }

    /** Deletes the clone; nothing is forgotten of it. */
    method DestroyBlue(server: Apps) returns (ok: bool, ghost ev: seq<Event>)
      requires Valid(server.previousOf)
      modifies server`log
      ensures Valid(server.previousOf) && server.log == old(server.log) + ev
      ensures ev == if greenID == "" then [] else [AppDeleted(greenID, ok)]
      ensures greenID == "" ==> !ok
    {
      ev := [];
      if greenID == "" {
        return false, ev;
      }
      ok, ev := server.DeleteApp(greenID);
    }
  }

  /**
   The trace of a switch: the services read from the blue app are sent back to it, each with an image in the
   green app's repository and under its tag, when the flat reference in between can carry the two.
   */
  ghost predicate Promoted(ev: seq<Event>, blueID: string) {
    && |ev| == 4 && ev[0].AppRead? && FirstImage(ev[0].app).Some?
    && ShowsServices(ev[2]) && ev[2].of == blueID
    && ev[3].UpdateSent? && ev[3].of == blueID && ev[3].answer.Answered?
    && var image := FirstImage(ev[0].app).value;
       Promotable(image) ==> ev[3].sent == WithImage(ev[2].app.value.services.value, image.repository, image.tag)
  }
  lemma PromotedByUpdate(ev: seq<Event>, blueID: string, flat: string)
    requires |ev| == 4 && ev[0].AppRead? && FirstImage(ev[0].app).Some? && flat == FlatRef(FirstImage(ev[0].app).value)
    requires ShowsServices(ev[2]) && ev[2].of == blueID
    requires ev[3].UpdateSent? && ev[3].of == blueID && ev[3].answer.Answered?
    requires ev[3].sent == WithImage(ev[2].app.value.services.value, ImageRepo(flat), ImageTag(flat))
    ensures Promoted(ev, blueID)
  {
    hide ImageRepo, ImageTag, WithImage;
    FlatRefExactly(FirstImage(ev[0].app).value);
  }
}
