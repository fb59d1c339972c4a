/** The `add NAME` command: Parse validates its input and loads the store,
    refusing a name the store already holds; Execute encrypts the secret and
    appends exactly one credential, then saves the store. The validators,
    the standard-input read, the key-service client construction, the
    clock, the random source, and the load and save of the document are
    collaborators whose outcomes the caller supplies. */
module Cli {
  import opened Wrappers
  import opened Primitives
  import Crypto
  import Model

  /** The validation helpers the command calls, each returning its own
      error: the credentials path check, the single-argument check (which
      yields the argument) and the credential-name check. */
  datatype Validators = Validators(
    validCredentialsPath: string -> Option<string>,
    hasOneArgument: seq<string> -> Result<string, string>,
    validName: string -> Option<string>)

  datatype CmdError =
    | Upstream(message: string)          // a collaborator's error, returned as it is
    | LoadFailed(cause: string)
    | NameTaken
    | EncryptFailed(failure: Crypto.CipherError)
    | SaveFailed(cause: string)

  function CmdMessage(e: CmdError): string
  {
    match e
    case Upstream(message) => message
    case LoadFailed(cause) => "Unable to load JSON: " + cause
    case NameTaken => "A credential with the same name already exists. Use the `rotate` command"
    case EncryptFailed(failure) => "Unable to encrypt credential: " + Crypto.Message(failure)
    case SaveFailed(cause) => "Unable to save JSON: " + cause
  }

  /** The outcome of Parse: the first failing step among the path check,
      the argument check, the name check, loading the store, and the
      duplicate-name check; None when every step passes. */
  function ParseVerdict(checks: Validators, credsPath: string, args: seq<string>,
                        loaded: Result<Model.Store, string>): (r: Option<CmdError>)
    reads if loaded.Success? then {loaded.value} else {}
    ensures r.None? <==>
      && checks.validCredentialsPath(credsPath).None?
      && checks.hasOneArgument(args).Success?
      && checks.validName(checks.hasOneArgument(args).value).None?
      && loaded.Success?
      && !loaded.value.Contains(checks.hasOneArgument(args).value)
    ensures r == Some(NameTaken) ==>
      loaded.Success? && checks.hasOneArgument(args).Success? &&
      exists i :: 0 <= i < |loaded.value.credentials| &&
        loaded.value.credentials[i].name == checks.hasOneArgument(args).value
    ensures checks.validCredentialsPath(credsPath).Some? ==>
      r == Some(Upstream(checks.validCredentialsPath(credsPath).value))
    ensures checks.validCredentialsPath(credsPath).None? && checks.hasOneArgument(args).Failure? ==>
      r == Some(Upstream(checks.hasOneArgument(args).error))
    ensures checks.validCredentialsPath(credsPath).None? && checks.hasOneArgument(args).Success? ==>
      var name := checks.hasOneArgument(args).value;
      && (checks.validName(name).Some? ==> r == Some(Upstream(checks.validName(name).value)))
      && (checks.validName(name).None? && loaded.Failure? ==> r == Some(LoadFailed(loaded.error)))
      && (checks.validName(name).None? && loaded.Success? && loaded.value.Contains(name) ==>
            r == Some(NameTaken))
  {
    if checks.validCredentialsPath(credsPath).Some? then
      Some(Upstream(checks.validCredentialsPath(credsPath).value))
    else if checks.hasOneArgument(args).Failure? then
      Some(Upstream(checks.hasOneArgument(args).error))
    else
      var name := checks.hasOneArgument(args).value;
      if checks.validName(name).Some? then Some(Upstream(checks.validName(name).value))
      else if loaded.Failure? then Some(LoadFailed(loaded.error))
      else if loaded.value.Contains(name) then Some(NameTaken)
      else None
  }

  class AddCmd {
    var credsPath: string
    var name: string
    var description: string
    var creds: Model.Store?

    /** A command with its two flags set: the credentials path and the
        description. */
    constructor (credsPath: string, description: string)
      ensures this.credsPath == credsPath && this.description == description
      ensures name == "" && creds == null
    {
      this.credsPath := credsPath;
      this.description := description;
      name := "";
      creds := null;
    }

    /** Validates the arguments and loads the store (`loaded` is the outcome
        of reading the document at the credentials path), stopping at the
        first failure. The name is recorded once the argument check passes,
        the store once it is loaded. */
    method Parse(args: seq<string>, checks: Validators, loaded: Result<Model.Store, string>)
      returns (err: Option<CmdError>)
      modifies this`name, this`creds
      ensures err == ParseVerdict(checks, credsPath, args, loaded)
      ensures var argument := checks.hasOneArgument(args);
        name == (if checks.validCredentialsPath(credsPath).None? && argument.Success?
                 then argument.value else old(name))
      ensures var argument := checks.hasOneArgument(args);
        creds == (if checks.validCredentialsPath(credsPath).None? && argument.Success? &&
                     checks.validName(argument.value).None? && loaded.Success?
                  then loaded.value else old(creds))
      ensures err.None? ==> creds != null && !creds.Contains(name)
    {
      var pathError := checks.validCredentialsPath(credsPath);
      if pathError.Some? {
        return Some(Upstream(pathError.value));
      }
      var argument := checks.hasOneArgument(args);
      if argument.Failure? {
        return Some(Upstream(argument.error));
      }
      name := argument.value;
      var nameError := checks.validName(name);
      if nameError.Some? {
        return Some(Upstream(nameError.value));
      }
      if loaded.Failure? {
        return Some(LoadFailed(loaded.error));
      }
      creds := loaded.value;
      if creds.Contains(name) {
        return Some(NameTaken);
      }
      return None;
    }

    /** Reads the secret (`input`), creates the key-service client
        (`client`), encrypts the secret with the store's cipher, appends one
        credential stamped with `now` truncated to the second, and saves the
        store (`saved` is the save's error, if any). Every failure before the
        append leaves the credentials untouched. */
    method Execute(input: Result<Bytes, string>, client: Result<KeyService, string>, box: SecretBox,
                   random: Result<Nonce, string>, now: int, saved: Option<string>)
      returns (err: Option<CmdError>)
      requires creds != null
      modifies creds`credentials
      ensures input.Failure? ==>
        err == Some(Upstream(input.error)) && creds.credentials == old(creds.credentials)
      ensures input.Success? && client.Failure? ==>
        err == Some(Upstream(client.error)) && creds.credentials == old(creds.credentials)
      ensures input.Success? && client.Success? ==>
        var encrypted := Crypto.Encrypt(creds.CipherFor(client.value), box, random, input.value);
        match encrypted
        case Failure(e) => err == Some(EncryptFailed(e)) && creds.credentials == old(creds.credentials)
        case Success(ciphertext) =>
          && creds.credentials == old(creds.credentials) +
               [Model.Credential(name, description, Model.TruncateToSecond(now), None, ciphertext)]
          && err == (if saved.Some? then Some(SaveFailed(saved.value)) else None)
      ensures !old(creds.Contains(name)) && Model.UniqueNames(old(creds.credentials)) ==>
        Model.UniqueNames(creds.credentials)
      ensures !old(creds.Contains(name)) && creds.credentials != old(creds.credentials) ==>
        Model.CountName(creds.credentials, name) == 1
    {
      if input.Failure? {
        return Some(Upstream(input.error));
      }
      if client.Failure? {
        return Some(Upstream(client.error));
      }
      var now' := Model.TruncateToSecond(now);
      var cipher := Crypto.Cipher(client.value, creds.kmsKeyId, creds.encryptionContext);
      var encrypted := Crypto.Encrypt(cipher, box, random, input.value);
      if encrypted.Failure? {
        return Some(EncryptFailed(encrypted.error));
      }
      var cred := Model.Credential(name, description, now', None, encrypted.value);
      ghost var nameIsNew := !creds.Contains(name);
      if nameIsNew {
        if Model.UniqueNames(creds.credentials) {
          Model.AppendFreshName(creds.credentials, cred);
        } else {
          Model.CountNameAppend(creds.credentials, cred, name);
        }
      }
      creds.credentials := creds.credentials + [cred];
      if saved.Some? {
        return Some(SaveFailed(saved.value));
      }
      return None;
    }
  }
}
