/** The ManageDestinations admin page: the modal that creates or replaces a
    destination, its image guard, and deleting a destination. */
module ManageDestinationsPage {
  import opened Common
  import opened Records
  import opened Store

  const IMAGE_REQUIRED := "Please upload an image"
  const SAVE_FAILED := "Failed to save destination"
  const DELETE_FAILED := "Failed to delete destination"

  /** The six fields of the modal's form. */
  datatype DestinationForm = DestinationForm(
    name: string,
    country: string,
    description: string,
    climate: string,
    bestTimeToVisit: string,
    attractions: seq<string>)

  /** `form.resetFields()`. */
  const EMPTY_FORM := DestinationForm("", "", "", "", "", [])

  /** `form.setFieldsValue(...)` from a stored destination. */
  function FormOf(d: Destination): DestinationForm
  {
    DestinationForm(d.name, d.country, d.description, d.climate, d.bestTimeToVisit, d.attractions)
  }

  /** `{ ...values, imageUrl }`: the record a submit writes. */
  function WithImage(f: DestinationForm, imageUrl: string): (d: Destination)
    ensures FormOf(d) == f && d.imageUrl == imageUrl
  {
    Destination(f.name, f.country, f.description, f.climate, f.bestTimeToVisit, f.attractions, imageUrl)
  }

  /** Opening a destination and saving it untouched writes it back as it
      was: the form and the image together hold the whole record. */
  lemma PrefillRoundTrip(d: Destination)
    ensures WithImage(FormOf(d), d.imageUrl) == d
  {
  }

  class DestinationsPage {
    var destinations: seq<Row<Destination>>
    var modalVisible: bool
    var editing: Option<Row<Destination>>
    var form: DestinationForm
    var imageUrl: string
    var previewImage: string

    constructor ()
      ensures destinations == [] && !modalVisible && editing.None? && form == EMPTY_FORM
      ensures imageUrl == "" && previewImage == ""
    {
      destinations, modalVisible, editing, form := [], false, None, EMPTY_FORM;
      imageUrl, previewImage := "", "";
    }

    method FetchDestinations(db: Db, reachable: bool)
      modifies this`destinations
      ensures destinations == if reachable then db.destinations else old(destinations)
    {
      if reachable {
        destinations := db.destinations;
      }
    }

    /** showModal: an existing destination fills all six fields and the
        image; a new one clears them. */
    method ShowModal(destination: Option<Row<Destination>>)
      modifies this`editing, this`form, this`imageUrl, this`previewImage, this`modalVisible
      ensures editing == destination && modalVisible
      ensures destination.Some? ==>
                form == FormOf(destination.value.val) &&
                imageUrl == destination.value.val.imageUrl && previewImage == imageUrl
      ensures destination.None? ==> form == EMPTY_FORM && imageUrl == "" && previewImage == ""
    {
      editing := destination;
      if destination.Some? {
        form := FormOf(destination.value.val);
        imageUrl := destination.value.val.imageUrl;
        previewImage := destination.value.val.imageUrl;
      } else {
        form := EMPTY_FORM;
        imageUrl := "";
        previewImage := "";
      }
      modalVisible := true;
    }

    /** handleCancel: the image is not cleared. */
    method Cancel()
      modifies this`modalVisible, this`editing, this`form
      ensures !modalVisible && editing.None? && form == EMPTY_FORM
    {
      modalVisible, editing, form := false, None, EMPTY_FORM;
    }

    /** The end of handleImageChange once the file is read: the data URL
        becomes both the preview and the image to save. */
    method ImageLoaded(dataUrl: string)
      modifies this`imageUrl, this`previewImage
      ensures imageUrl == dataUrl && previewImage == dataUrl
    {
      imageUrl, previewImage := dataUrl, dataUrl;
    }

    /** handleDelete. */
    method Delete(db: Db, id: int, reachable: bool) returns (r: Outcome)
      requires db.Valid()
      modifies db`destinations, this`destinations
      ensures db.Valid()
      ensures r == Done <==> reachable && Has(old(db.destinations), id)
      ensures r == Done ==>
                db.destinations == Remove(old(db.destinations), id) && destinations == Remove(old(destinations), id)
      ensures r != Done ==> r == Failed(DELETE_FAILED) && unchanged(db) && destinations == old(destinations)
    {
      if !reachable || !Has(db.destinations, id) {
        return Failed(DELETE_FAILED);
      }
      RemoveOk(db.destinations, id, db.nextId);
      db.destinations := Remove(db.destinations, id);
      destinations := Remove(destinations, id);
      r := Done;
    }

    /** handleSubmit: without an image nothing is sent; otherwise the form
        and the image replace the destination being edited (a PUT, so the
        whole record), or become a new one. On success the modal closes and
        the list is fetched again. */
    method Submit(db: Db, values: DestinationForm, reachable: bool) returns (r: Outcome)
      requires db.Valid()
      modifies db`destinations, db`nextId, this`modalVisible, this`destinations
      ensures db.Valid()
      ensures imageUrl == "" ==>
                r == Failed(IMAGE_REQUIRED) && unchanged(db) &&
                modalVisible == old(modalVisible) && destinations == old(destinations)
      ensures imageUrl != "" ==>
                (r == Done <==> reachable && (editing.None? || Has(old(db.destinations), editing.value.id)))
      ensures r == Done && editing.Some? ==>
                db.destinations == Replace(old(db.destinations), editing.value.id, WithImage(values, imageUrl)) &&
                db.nextId == old(db.nextId)
      ensures r == Done && editing.None? ==>
                db.destinations == old(db.destinations) + [Row(old(db.nextId), WithImage(values, imageUrl))] &&
                db.nextId == old(db.nextId) + 1
      ensures r == Done ==> !modalVisible && destinations == db.destinations
      ensures r != Done ==> unchanged(db) && modalVisible == old(modalVisible) && destinations == old(destinations)
    {
      if imageUrl == "" {
        return Failed(IMAGE_REQUIRED);
      }
      if !reachable {
        return Failed(SAVE_FAILED);
      }
      var d := WithImage(values, imageUrl);
      if editing.Some? {
        if !Has(db.destinations, editing.value.id) {
          return Failed(SAVE_FAILED);
        }
        ReplaceOk(db.destinations, editing.value.id, d, db.nextId);
        db.destinations := Replace(db.destinations, editing.value.id, d);
      } else {
        AppendOk(db.destinations, d, db.nextId);
        db.destinations := db.destinations + [Row(db.nextId, d)];
        db.nextId := db.nextId + 1;
      }
      modalVisible := false;
      FetchDestinations(db, reachable);
      r := Done;
    }
  }
}
