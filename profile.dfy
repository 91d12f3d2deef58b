/** The profile page (cilent/src/pages/profile.jsx): the form filled from
    the signed-in user, editing and cancelling, the avatar, and the update
    request it sends. */
module Profile {
  import opened Wrappers
  import opened Strings
  import UserModel
  import UserController

  /** The signed-in user as the client holds it (from the login answer or
      the profile request); any field may be missing. */
  datatype ClientUser = ClientUser(
    name: Option<string>,
    email: Option<string>,
    image: Option<string>,
    city: Option<string>,
    phone: Option<string>,
    favoriteGenres: Option<string>,
    preferredLanguage: Option<string>,
    gender: Option<string>,
    about: Option<string>)

  const LoadFailed := "Failed to load profile details"
  const Updated := "Profile updated successfully"
  const UpdateFailed := "Failed to update profile"
  const SaveWentWrong := "Something went wrong while saving your profile."

  /** The keys of the form. */
  const FormKeys := {"name", "email", "city", "phone", "favoriteGenres", "preferredLanguage", "gender", "about"}

  /** The keys the submit payload always carries. */
  const PayloadKeys := ["name", "city", "phone", "favoriteGenres", "preferredLanguage", "gender", "about"]

  const EmptyForm := map["name" := "", "email" := "", "city" := "", "phone" := "", "favoriteGenres" := "",
                         "preferredLanguage" := "", "gender" := "", "about" := ""]

  /** The form filled from a user: each field the user's value, or ''. */
  function FormFrom(u: ClientUser): (form: map<string, string>)
    ensures form.Keys == FormKeys
    ensures form["name"] == OrElse(u.name, "") && form["email"] == OrElse(u.email, "")
    ensures form["city"] == OrElse(u.city, "") && form["phone"] == OrElse(u.phone, "")
    ensures form["favoriteGenres"] == OrElse(u.favoriteGenres, "")
    ensures form["preferredLanguage"] == OrElse(u.preferredLanguage, "")
    ensures form["gender"] == OrElse(u.gender, "") && form["about"] == OrElse(u.about, "")
  {
    map[
      "name" := OrElse(u.name, ""),
      "email" := OrElse(u.email, ""),
      "city" := OrElse(u.city, ""),
      "phone" := OrElse(u.phone, ""),
      "favoriteGenres" := OrElse(u.favoriteGenres, ""),
      "preferredLanguage" := OrElse(u.preferredLanguage, ""),
      "gender" := OrElse(u.gender, ""),
      "about" := OrElse(u.about, "")]
  }

  /** The preview: the user's image, unless it is missing or the default. */
  function PreviewFrom(u: ClientUser): (preview: Option<string>)
    ensures preview.Some? <==> Truthy(u.image) && u.image.value != UserModel.DefaultImage
    ensures preview.Some? ==> preview == u.image
  {
    if Truthy(u.image) && u.image.value != UserModel.DefaultImage then u.image else None
  }

  /** Whether the sync turns editing on: the city or the preferred language
      is missing, that is, the form shows it empty. */
  predicate NeedsDetails(u: ClientUser)
    ensures NeedsDetails(u) <==> FormFrom(u)["city"] == "" || FormFrom(u)["preferredLanguage"] == ""
  {
    !Truthy(u.city) || !Truthy(u.preferredLanguage)
  }

  /** The body of `PUT /api/user/profile`: the seven text fields of the
      form, and the new avatar when one was picked. */
  function SubmitPayload(form: map<string, string>, avatarData: string): (payload: map<string, string>)
    requires forall k :: k in PayloadKeys ==> k in form
    ensures "email" !in payload
    ensures "image" in payload <==> avatarData != ""
    ensures "image" in payload ==> payload["image"] == avatarData
    ensures payload.Keys == (set k | k in PayloadKeys) + (if avatarData != "" then {"image"} else {})
    ensures forall k :: k in PayloadKeys ==> payload[k] == form[k]
  {
    var text := map k | k in PayloadKeys :: form[k];
    if avatarData != "" then text["image" := avatarData] else text
  }

  /** Every field the page sends is one the server's whitelist accepts, so
      the server applies the payload as it is: the update writes exactly the
      form's text fields and, when one was picked, the new avatar. */
  lemma ServerAcceptsWholePayload(form: map<string, string>, avatarData: string)
    requires forall k :: k in PayloadKeys ==> k in form
    ensures forall k :: k in SubmitPayload(form, avatarData) ==> k in UserController.ProfileFields
    ensures UserController.UpdateData(SubmitPayload(form, avatarData)) == SubmitPayload(form, avatarData)
  {
  }

  /** The answer to the profile request: the body, or an error. */
  datatype ProfileReply = ProfileAnswer(success: bool, user: Option<ClientUser>) | ProfileError

  /** The answer to the update request: the body, or an error. */
  datatype SubmitReply = SubmitAnswer(success: bool, user: Option<ClientUser>, message: Option<string>) | SubmitError

  /** Whether an update answer is taken: a success carrying a user. */
  predicate Accepted(reply: SubmitReply)
  {
    reply.SubmitAnswer? && reply.success && reply.user.Some?
  }

  /** The toast an update answer shows: the server's message when it has
      one, else the page's own text for success or failure; a failed
      request always shows the same text. */
  function SubmitToast(reply: SubmitReply): (toast: string)
    ensures Accepted(reply) ==> toast == OrElse(reply.message, Updated)
    ensures reply.SubmitAnswer? && !Accepted(reply) ==> toast == OrElse(reply.message, UpdateFailed)
    ensures reply.SubmitError? ==> toast == SaveWentWrong
    ensures toast != ""
  {
    match reply
    case SubmitAnswer(_, _, message) => OrElse(message, if Accepted(reply) then Updated else UpdateFailed)
    case SubmitError => SaveWentWrong
  }

  /** The page's state; `user` mirrors the signed-in user of the app
      context, which the page reads and sets. */
  class ProfilePage {
    var user: Option<ClientUser>
    var isEditing: bool
    var previewImage: Option<string>
    var avatarData: string
    var formData: map<string, string>

    /** The form always has its eight fields. */
    ghost predicate Valid()
      reads this
    {
      FormKeys <= formData.Keys
    }

    constructor (signedIn: Option<ClientUser>)
      ensures Valid()
      ensures user == signedIn && !isEditing && previewImage.None? && avatarData == "" && formData == EmptyForm
    {
      user, isEditing, previewImage, avatarData := signedIn, false, None, "";
      formData := EmptyForm;
    }

    /** The effect on `user`: with a user, the form and the preview are
        filled from it, and editing is switched on when details are
        missing; without one nothing changes. */
    method UserChanged()
      requires Valid()
      modifies this
      ensures Valid()
      ensures user == old(user) && avatarData == old(avatarData)
      ensures user.Some? ==> formData == FormFrom(user.value) && previewImage == PreviewFrom(user.value)
      ensures user.Some? ==> isEditing == (NeedsDetails(user.value) || old(isEditing))
      ensures user.None? ==> formData == old(formData) && previewImage == old(previewImage) && isEditing == old(isEditing)
    {
      if user.Some? {
        var u := user.value;
        formData := FormFrom(u);
        previewImage := PreviewFrom(u);
        if NeedsDetails(u) {
          isEditing := true;
        }
      }
    }

    /** The mount effect: without a user the page goes to the login;
        with one the profile is requested (the returned flag). */
    method Mount() returns (fetchProfile: bool, goToLogin: bool)
      ensures fetchProfile == user.Some? && goToLogin == user.None?
    {
      if user.None? {
        return false, true;
      }
      fetchProfile, goToLogin := true, false;
    }

    /** The mount fetch: a successful answer with a user replaces the
        signed-in user; a failed request shows a toast (returned). */
    method ProfileFetched(reply: ProfileReply) returns (toast: Option<string>)
      requires Valid()
      modifies this
      ensures Valid()
      ensures user == if reply.ProfileAnswer? && reply.success && reply.user.Some? then reply.user else old(user)
      ensures toast == if reply.ProfileError? then Some(LoadFailed) else None
      ensures isEditing == old(isEditing) && formData == old(formData)
      ensures previewImage == old(previewImage) && avatarData == old(avatarData)
    {
      toast := None;
      match reply
      case ProfileAnswer(success, fetched) =>
        if success && fetched.Some? {
          user := fetched;
        }
      case ProfileError =>
        toast := Some(LoadFailed);
    }

    /** `handleChange`: sets one field and leaves the others. */
    method HandleChange(name: string, value: string)
      requires Valid()
      modifies this
      ensures Valid()
      ensures formData == old(formData)[name := value]
      ensures forall k :: k in old(formData) && k != name ==> formData[k] == old(formData)[k]
      ensures user == old(user) && isEditing == old(isEditing)
      ensures previewImage == old(previewImage) && avatarData == old(avatarData)
    {
      formData := formData[name := value];
    }

    /** `handleAvatarChange` once the file is read: the data URL becomes
        both the avatar to send and the preview; no file changes nothing. */
    method HandleAvatarChange(dataUrl: Option<string>)
      requires Valid()
      modifies this
      ensures Valid()
      ensures dataUrl.Some? ==> avatarData == dataUrl.value && previewImage == dataUrl
      ensures dataUrl.None? ==> avatarData == old(avatarData) && previewImage == old(previewImage)
      ensures user == old(user) && isEditing == old(isEditing) && formData == old(formData)
    {
      if dataUrl.Some? {
        avatarData := dataUrl.value;
        previewImage := dataUrl;
      }
    }

    /** `handleToggleEdit`: while editing, a cancel restores the form and
        the preview from the user, drops the picked avatar and ends
        editing; otherwise editing starts and nothing else changes. */
    method HandleToggleEdit()
      requires Valid()
      modifies this
      ensures Valid()
      ensures user == old(user)
      ensures isEditing == !old(isEditing)
      ensures old(isEditing) && user.Some? ==>
                formData == FormFrom(user.value) && previewImage == PreviewFrom(user.value) && avatarData == ""
      ensures !old(isEditing) || user.None? ==>
                formData == old(formData) && previewImage == old(previewImage) && avatarData == old(avatarData)
    {
      if isEditing {
        if user.Some? {
          formData := FormFrom(user.value);
          previewImage := PreviewFrom(user.value);
          avatarData := "";
        }
        isEditing := false;
      } else {
        isEditing := true;
      }
    }

    /** `handleSubmit`: without a user nothing is sent and no toast is
        shown; otherwise the payload is sent (returned), the answer's toast
        is shown (returned), and an accepted answer replaces the user and
        ends editing, while any other answer leaves the page as it was. */
    method HandleSubmit(reply: SubmitReply) returns (sent: Option<map<string, string>>, toast: Option<string>)
      requires Valid()
      modifies this
      ensures Valid()
      ensures old(user).None? ==> sent.None? && toast.None?
      ensures old(user).Some? ==> sent == Some(SubmitPayload(old(formData), old(avatarData)))
      ensures old(user).Some? ==> toast == Some(SubmitToast(reply))
      ensures old(user).Some? && Accepted(reply) ==> user == reply.user && !isEditing
      ensures !(old(user).Some? && Accepted(reply)) ==> user == old(user) && isEditing == old(isEditing)
      ensures formData == old(formData) && previewImage == old(previewImage) && avatarData == old(avatarData)
    {
      if user.None? {
        return None, None;
      }
      sent := Some(SubmitPayload(formData, avatarData));
      toast := Some(SubmitToast(reply));
      if Accepted(reply) {
        user := reply.user;
        isEditing := false;
      }
    }
  }
}
