/** The admin module: at most one admin key, bootstrapped by the first caller and
    afterwards replaced only by the current admin. */
module AdminRegistry {
  import opened Common


  class Admin {
    /** The stored admin key; absent until the first successful SetAdmin. */
    var admin: Option<Key>

    constructor ()
      ensures admin == None
    {
      admin := None;
    }

    /** Anyone may set the admin while none is stored; afterwards only the admin may,
        and it may hand over to any key, itself included. */
    method SetAdmin(sender: Key, newAdmin: Key) returns (s: Status)
      modifies this
      ensures s.Ok? <==> old(admin).None? || old(admin) == Some(sender)
      ensures s.Ok? ==> admin == Some(newAdmin)
      ensures s.Err? ==> s == Err(CannotSetAdmin) && admin == old(admin)
      ensures old(admin).Some? ==> admin.Some?
    {
      var canSetAdmin := admin.None? || admin == Some(sender);
      if !canSetAdmin {
        return Err(CannotSetAdmin);
      }
      admin := Some(newAdmin);
      s := Ok;
    }

    /** Succeeds exactly when the sender is the stored admin. With no admin stored
        nobody is admin: the check fails closed. */
    method AssertSenderIsAdmin(sender: Key) returns (s: Status)
      ensures s.Ok? <==> admin == Some(sender)
      ensures s.Err? ==> s == Err(NotAdmin)
    {
      var senderIsAdmin := admin.Some? && admin.value == sender;
      s := if senderIsAdmin then Ok else Err(NotAdmin);
    }
  }
}
