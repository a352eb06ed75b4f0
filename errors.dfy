/**
 * The failure causes the library reports. The source raises them through
 * `std::io::Error` and `anyhow` with a context message; here each distinct
 * raise site is one constructor.
 */
module Errors {

  datatype Error =
    | InvalidInput                // utils.rs: the trimmed line was empty ("Empty input")
    | StdinFailed                 // utils.rs: the read from standard input itself failed
    | CredentialsFileUnreadable   // credentials.rs: "Failed to read credentials file"
    | CredentialsFileUnparsable   // credentials.rs: "Failed to parse credentials file"
    | CredentialsFileNotWritten   // credentials.rs: serialising or writing the file failed
    | CredentialsDirUnreadable    // credentials_manager.rs: "Failed to read from credentials directory"
    | CredentialsDirNotCreated    // credentials_manager.rs: "Failed to create credentials directory"
    | EmptyUserStorageName        // credentials_manager.rs: "User storage name cannot be empty"
    | DuplicateUserStorageName    // credentials_manager.rs: "Credentials with the same name already exist"
    | ListingFailed               // storage.rs: the bucket listing request failed
    | NoResponseData              // storage.rs: "No response data received"
    | NoCommonPrefixes            // storage.rs: "No common prefixes received"
}
